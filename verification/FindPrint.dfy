/**
 Writing a find expression as an argument vector with as few parentheses as
 possible, and the theorem that the parser of user/find.c reads it back.
 */
module FindPrint {
  import opened Bytes
  import opened FindParse

  /** Binding strength: 0 where any expression may stand, 1 for an operand of -o, 2 for a primary. */
  type Level = l: int | 0 <= l <= 2

  /** How the tokens are spelled. */
  type Spelling = Token -> string

  function Ender(plus: bool): string { if plus then "+" else ";" }

  function LeafText(l: Leaf, spell: Spelling): (r: seq<string>)
    ensures r != []
  {
    match l
    case Bare(p) => [spell(Test(p))]
    case With(k, arg) => [spell(TestArg(k)), arg]
    case Exec(dir, argv, plus) => [spell(Command(dir))] + (argv + [Ender(plus)])
  }

  function Paren(b: bool, ts: seq<string>, spell: Spelling): seq<string> {
    if b then [spell(LParen)] + (ts + [spell(RParen)]) else ts
  }

  function Mid(dashA: bool, spell: Spelling): seq<string> { if dashA then [spell(DashA)] else [] }

  /** `dashA` chooses whether conjunctions are written with `-a` or by juxtaposition. */
  function Text(e: Expr, level: Level, dashA: bool, spell: Spelling): (r: seq<string>)
    decreases e
  {
    match e
    case Prim(l) => LeafText(l, spell)
    case Not(c) => [spell(Bang)] + Text(c, 2, dashA, spell)
    case And(l, r) =>
      Paren(level == 2, Text(l, 1, dashA, spell) + (Mid(dashA, spell) + Text(r, 2, dashA, spell)), spell)
    case Or(l, r) => Paren(level >= 1, Text(l, 0, dashA, spell) + ([spell(DashO)] + Text(r, 1, dashA, spell)), spell)
  }

  // ----- what an expression costs and sets -----

  function Size(e: Expr): nat {
    match e
    case Prim(_) => 1
    case Not(c) => Size(c) + 1
    case And(l, r) => Size(l) + Size(r) + 1
    case Or(l, r) => Size(l) + Size(r) + 1
  }

  predicate HasAction(e: Expr) {
    match e
    case Prim(l) => IsAction(l)
    case Not(c) => HasAction(c)
    case And(l, r) => HasAction(l) || HasAction(r)
    case Or(l, r) => HasAction(l) || HasAction(r)
  }

  predicate HasDelete(e: Expr) {
    match e
    case Prim(l) => l == Bare(Delete)
    case Not(c) => HasDelete(c)
    case And(l, r) => HasDelete(l) || HasDelete(r)
    case Or(l, r) => HasDelete(l) || HasDelete(r)
  }

  /** Nodes taken from the pool, and the flags set. */
  datatype Cost = Cost(nodes: nat, action: bool, delete: bool)

  function CostOf(e: Expr): Cost { Cost(Size(e), HasAction(e), HasDelete(e)) }
  function LeafCost(l: Leaf): Cost { Cost(1, IsAction(l), l == Bare(Delete)) }
  function More(a: Cost): Cost { a.(nodes := a.nodes + 1) }
  function Both(a: Cost, b: Cost): Cost { Cost(a.nodes + b.nodes + 1, a.action || b.action, a.delete || b.delete) }

  /** Arguments are acceptable and command words do not end the command early. */
  predicate WritableLeaf(l: Leaf, env: Env) {
    match l
    case With(k, arg) => Accepts(env, k, arg)
    case Exec(_, argv, _) => forall i :: 0 <= i < |argv| ==> argv[i] != ";" && argv[i] != "+"
    case Bare(_) => true
  }

  predicate Writable(e: Expr, env: Env) {
    match e
    case Prim(l) => WritableLeaf(l, env)
    case Not(c) => Writable(c, env)
    case And(l, r) => Writable(l, env) && Writable(r, env)
    case Or(l, r) => Writable(l, env) && Writable(r, env)
  }

  /** The state after reading something of cost `c` in `len` arguments. */
  function Past(s: PState, c: Cost, len: nat): PState {
    PState(s.i + len, s.n + c.nodes, s.action || c.action, s.depth || c.delete)
  }

  predicate Fits(s: PState, c: Cost) { s.n + c.nodes <= MAX_EXPRS }

  // ----- texts in the argument vector -----

  lemma {:induction false} ThreeParts(argv: seq<string>, i: nat, a: seq<string>, b: seq<string>, c: seq<string>)
    requires Stands(argv, i, a + (b + c))
    ensures Stands(argv, i, a) && Stands(argv, i + |a|, b) && Stands(argv, i + |a| + |b|, c)
  {
    StandsSplit(argv, i, a, b + c);
    StandsSplit(argv, i + |a|, b, c);
  }

  /** Every token is classified as what it is. */
  ghost predicate GoodLexer(lex: string -> Token, spell: Spelling) {
    forall t :: t != Other ==> lex(spell(t)) == t
  }

  /** The text of an expression starts like a primary. */
  lemma {:induction false} TextHead(e: Expr, level: Level, dashA: bool, spell: Spelling, lex: string -> Token)
    requires GoodLexer(lex, spell)
    ensures var ts := Text(e, level, dashA, spell);
            ts != [] && !lex(ts[0]).DashA? && !lex(ts[0]).DashO? && !lex(ts[0]).RParen?
  {
    match e
    case Prim(Bare(p)) => assert lex(spell(Test(p))) == Test(p);
    case Prim(With(k, _)) => assert lex(spell(TestArg(k))) == TestArg(k);
    case Prim(Exec(dir, _, _)) => assert lex(spell(Command(dir))) == Command(dir);
    case Not(_) =>
    case And(l, _) => TextHead(l, 1, dashA, spell, lex);
    case Or(l, _) => TextHead(l, 0, dashA, spell, lex);
  }

  // ----- parsers by their rules -----

  /** The parser functions at the arguments of one vector. */
  datatype Parsers = Parsers(
    primary: PState -> Parsed, conj: PState -> Parsed, disj: PState -> Parsed,
    conjLoop: (Expr, PState) -> Parsed, disjLoop: (Expr, PState) -> Parsed)

  /** What a primary parser answers on `len` arguments that write `e`. */
  function Reading(s: PState, e: Expr, c: Cost, len: nat): Parsed {
    if Fits(s, c) then Got(e, Past(s, c, len)) else Failed
  }

  /** What the conjunction parser answers there, before it looks further. */
  function ConjReading(ps: Parsers, s: PState, e: Expr, c: Cost, len: nat): Parsed {
    if Fits(s, c) then ps.conjLoop(e, Past(s, c, len)) else Failed
  }

  function DisjReading(ps: Parsers, s: PState, e: Expr, c: Cost, len: nat): Parsed {
    if Fits(s, c) then ps.disjLoop(e, Past(s, c, len)) else Failed
  }

  /** An argument vector, how expressions are written, what they cost, and how the vector is read. */
  datatype Setting = Setting(
    argv: seq<string>, env: Env, spell: Spelling, mid: seq<string>,
    text: (Expr, Level) -> seq<string>, cost: Expr -> Cost, ps: Parsers)

  ghost predicate LeafRule(x: Setting, s: PState, l: Leaf) {
    WritableLeaf(l, x.env) && Stands(x.argv, s.i, LeafText(l, x.spell)) ==>
      x.ps.primary(s) == Reading(s, Prim(l), LeafCost(l), |LeafText(l, x.spell)|)
  }

  ghost predicate NotRule(x: Setting, s: PState, e: Expr, c: Cost, len: nat) {
    var s1 := s.(i := s.i + 1);
    s.i < |x.argv| && x.env.lex(x.argv[s.i]) == Bang && x.ps.primary(s1) == Reading(s1, e, c, len) ==>
      x.ps.primary(s) == Reading(s, Not(e), More(c), 1 + len)
  }

  ghost predicate ParenRule(x: Setting, s: PState, e: Expr, c: Cost, len: nat) {
    var s1 := s.(i := s.i + 1);
    && s1.i + len < |x.argv| && x.env.lex(x.argv[s.i]) == LParen && x.env.lex(x.argv[s1.i + len]) == RParen
    && x.ps.disj(s1) == DisjReading(x.ps, s1, e, c, len) ==>
      x.ps.primary(s) == Reading(s, e, c, len + 2)
  }

  ghost predicate ConjStart(x: Setting, s: PState, e: Expr, c: Cost, len: nat) {
    s.i + len <= |x.argv| && x.ps.primary(s) == Reading(s, e, c, len) ==>
      x.ps.conj(s) == ConjReading(x.ps, s, e, c, len)
  }

  /** `r`, of cost `d` in `b` arguments, follows `l`, of cost `c` in `a` arguments, `k` arguments behind it. */
  ghost predicate ConjRule(x: Setting, s: PState, l: Expr, c: Cost, a: nat, k: nat, r: Expr, d: Cost, b: nat) {
    var s1 := Past(s, c, a);
    var s2 := s1.(i := s1.i + k);
    && s2.i + b <= |x.argv| && SkipAnd(x.argv, s1, x.env) == s2 && !Stops(x.argv, s2.i, x.env)
    && x.ps.primary(s2) == Reading(s2, r, d, b) ==>
      ConjReading(x.ps, s, l, c, a) == ConjReading(x.ps, s, And(l, r), Both(c, d), a + k + b)
  }

  ghost predicate DisjStart(x: Setting, s: PState, e: Expr, c: Cost, len: nat) {
    && s.i + len <= |x.argv| && Stops(x.argv, s.i + len, x.env)
    && x.ps.conj(s) == ConjReading(x.ps, s, e, c, len) ==>
      x.ps.disj(s) == DisjReading(x.ps, s, e, c, len)
  }

  ghost predicate DisjRule(x: Setting, s: PState, l: Expr, c: Cost, a: nat, r: Expr, d: Cost, b: nat) {
    var s1 := Past(s, c, a);
    var s2 := s1.(i := s1.i + 1);
    && s2.i + b <= |x.argv| && x.env.lex(x.argv[s1.i]) == DashO && Stops(x.argv, s2.i + b, x.env)
    && x.ps.conj(s2) == ConjReading(x.ps, s2, r, d, b) ==>
      DisjReading(x.ps, s, l, c, a) == DisjReading(x.ps, s, Or(l, r), Both(c, d), a + 1 + b)
  }

  ghost predicate PrimaryRules(x: Setting) {
    && (forall s, l :: LeafRule(x, s, l))
    && (forall s, e, c, len :: NotRule(x, s, e, c, len))
    && (forall s, e, c, len :: ParenRule(x, s, e, c, len))
  }

  ghost predicate ConjRules(x: Setting) {
    && (forall s, e, c, len :: ConjStart(x, s, e, c, len))
    && (forall s, l, c, a, k, r, d, b :: ConjRule(x, s, l, c, a, k, r, d, b))
  }

  ghost predicate DisjRules(x: Setting) {
    && (forall s, e, c, len :: DisjStart(x, s, e, c, len))
    && (forall s, l, c, a, r, d, b :: DisjRule(x, s, l, c, a, r, d, b))
  }

  // ----- texts by their rules -----

  ghost predicate LeafWritten(x: Setting, l: Leaf) {
    x.text(Prim(l), 2) == LeafText(l, x.spell) && x.cost(Prim(l)) == LeafCost(l)
  }

  ghost predicate NotWritten(x: Setting, e: Expr) {
    x.text(Not(e), 2) == [x.spell(Bang)] + x.text(e, 2) && x.cost(Not(e)) == More(x.cost(e))
  }

  ghost predicate AndWritten(x: Setting, l: Expr, r: Expr) {
    && x.text(And(l, r), 1) == x.text(l, 1) + (x.mid + x.text(r, 2))
    && x.cost(And(l, r)) == Both(x.cost(l), x.cost(r))
  }

  ghost predicate OrWritten(x: Setting, l: Expr, r: Expr) {
    && x.text(Or(l, r), 0) == x.text(l, 0) + ([x.spell(DashO)] + x.text(r, 1))
    && x.cost(Or(l, r)) == Both(x.cost(l), x.cost(r))
  }

  /** Levels matter only where parentheses do. */
  ghost predicate Levels(x: Setting, e: Expr) {
    && (!e.And? ==> x.text(e, 1) == x.text(e, 2))
    && (!e.Or? ==> x.text(e, 0) == x.text(e, 1))
    && (e.And? || e.Or? ==> x.text(e, 2) == [x.spell(LParen)] + (x.text(e, 0) + [x.spell(RParen)]))
  }

  /** The text of an expression starts like a primary. */
  ghost predicate Starts(x: Setting, e: Expr) {
    var ts := x.text(e, 2);
    ts != [] && var t := x.env.lex(ts[0]); !t.DashA? && !t.DashO? && !t.RParen?
  }

  ghost predicate TextRules(x: Setting) {
    && GoodLexer(x.env.lex, x.spell) && (x.mid == [] || x.mid == [x.spell(DashA)])
    && (forall l :: LeafWritten(x, l)) && (forall e :: NotWritten(x, e))
    && (forall l, r :: AndWritten(x, l, r)) && (forall l, r :: OrWritten(x, l, r))
    && (forall e :: Levels(x, e)) && (forall e :: Starts(x, e))
  }

  ghost predicate Rules(x: Setting) {
    TextRules(x) && PrimaryRules(x) && ConjRules(x) && DisjRules(x)
  }

  // ----- parsers with these rules read the text back -----

  ghost predicate PrimaryAt(x: Setting, e: Expr, s: PState) {
    Stands(x.argv, s.i, x.text(e, 2)) ==> x.ps.primary(s) == Reading(s, e, x.cost(e), |x.text(e, 2)|)
  }

  ghost predicate ConjAt(x: Setting, e: Expr, s: PState) {
    Stands(x.argv, s.i, x.text(e, 1)) ==> x.ps.conj(s) == ConjReading(x.ps, s, e, x.cost(e), |x.text(e, 1)|)
  }

  ghost predicate DisjAt(x: Setting, e: Expr, s: PState) {
    Stands(x.argv, s.i, x.text(e, 0)) && Stops(x.argv, s.i + |x.text(e, 0)|, x.env) ==>
      x.ps.disj(s) == DisjReading(x.ps, s, e, x.cost(e), |x.text(e, 0)|)
  }

  /** Wherever `e` stands as a primary, the primary parser reads it. */
  ghost predicate ReadsPrimary(x: Setting, e: Expr) { forall s :: PrimaryAt(x, e, s) }

  /** Wherever it stands as a conjunct, the conjunction parser reads it and goes on behind it. */
  ghost predicate ReadsConj(x: Setting, e: Expr) { forall s :: ConjAt(x, e, s) }

  /** Wherever it stands in front of an operator or the end, so does the disjunction parser. */
  ghost predicate ReadsDisj(x: Setting, e: Expr) { forall s :: DisjAt(x, e, s) }

  lemma {:induction false} LeafCase(x: Setting, l: Leaf, s: PState)
    requires TextRules(x) && PrimaryRules(x) && WritableLeaf(l, x.env)
    ensures PrimaryAt(x, Prim(l), s)
  {
    assert LeafWritten(x, l) && LeafRule(x, s, l);
  }

  lemma {:induction false} NotCase(x: Setting, e: Expr, s: PState)
    requires TextRules(x) && PrimaryRules(x) && ReadsPrimary(x, e)
    ensures PrimaryAt(x, Not(e), s)
  {
    var t, s1 := x.text(e, 2), s.(i := s.i + 1);
    assert NotWritten(x, e);
    if Stands(x.argv, s.i, [x.spell(Bang)] + t) {
      StandsAt(x.argv, s.i, [x.spell(Bang)] + t, 0);
      StandsSplit(x.argv, s.i, [x.spell(Bang)], t);
      assert PrimaryAt(x, e, s1) && NotRule(x, s, e, x.cost(e), |t|);
    }
  }

  lemma {:induction false} ParenParts(argv: seq<string>, i: nat, open: string, body: seq<string>, close: string)
    requires Stands(argv, i, [open] + (body + [close]))
    ensures var j := i + 1 + |body|;
            j < |argv| && argv[i] == open && Stands(argv, i + 1, body) && argv[j] == close
  {
    StandsAt(argv, i, [open] + (body + [close]), 0);
    StandsSplit(argv, i, [open], body + [close]);
    StandsSplit(argv, i + 1, body, [close]);
    StandsAt(argv, i + 1 + |body|, [close], 0);
  }

  lemma {:induction false} ParenCase(x: Setting, e: Expr, s: PState)
    requires (e.And? || e.Or?) && TextRules(x) && PrimaryRules(x) && ReadsDisj(x, e)
    ensures PrimaryAt(x, e, s)
  {
    var body, c, s1 := x.text(e, 0), x.cost(e), s.(i := s.i + 1);
    assert Levels(x, e);
    if Stands(x.argv, s.i, x.text(e, 2)) {
      ParenParts(x.argv, s.i, x.spell(LParen), body, x.spell(RParen));
      assert DisjAt(x, e, s1) && ParenRule(x, s, e, c, |body|);
    }
  }

  lemma {:induction false} ConjAlone(x: Setting, e: Expr, s: PState)
    requires !e.And? && TextRules(x) && ConjRules(x) && ReadsPrimary(x, e)
    ensures ConjAt(x, e, s)
  {
    assert Levels(x, e) && PrimaryAt(x, e, s) && ConjStart(x, s, e, x.cost(e), |x.text(e, 2)|);
  }

  lemma {:induction false} DisjAlone(x: Setting, e: Expr, s: PState)
    requires !e.Or? && TextRules(x) && DisjRules(x) && ReadsConj(x, e)
    ensures DisjAt(x, e, s)
  {
    assert Levels(x, e) && ConjAt(x, e, s) && DisjStart(x, s, e, x.cost(e), |x.text(e, 1)|);
  }

  lemma {:induction false} NextConjunct(x: Setting, s: PState, e: Expr, k: nat)
    requires TextRules(x) && k == |x.mid| && Stands(x.argv, s.i, x.mid) && Stands(x.argv, s.i + k, x.text(e, 2))
    ensures SkipAnd(x.argv, s, x.env) == s.(i := s.i + k) && !Stops(x.argv, s.i + k, x.env)
  {
    assert Starts(x, e);
    if k > 0 { StandsAt(x.argv, s.i, x.mid, 0); }
    StandsAt(x.argv, s.i + k, x.text(e, 2), 0);
  }

  lemma {:induction false} ApplyConj(
    x: Setting, s: PState, l: Expr, c: Cost, a: nat, k: nat, r: Expr, d: Cost, b: nat, s1: PState, s2: PState)
    requires ConjRules(x) && s1 == Past(s, c, a) && s2 == s1.(i := s1.i + k) && s2.i + b <= |x.argv|
    requires SkipAnd(x.argv, s1, x.env) == s2 && !Stops(x.argv, s2.i, x.env)
    requires x.ps.conj(s) == ConjReading(x.ps, s, l, c, a) && x.ps.primary(s2) == Reading(s2, r, d, b)
    ensures x.ps.conj(s) == ConjReading(x.ps, s, And(l, r), Both(c, d), a + k + b)
  {
    assert ConjRule(x, s, l, c, a, k, r, d, b);
  }

  lemma {:induction false} AndAt(x: Setting, l: Expr, r: Expr, t: seq<string>, u: seq<string>, s: PState)
    requires TextRules(x) && ConjRules(x) && ReadsConj(x, l) && ReadsPrimary(x, r)
    requires t == x.text(l, 1) && u == x.text(r, 2) && Stands(x.argv, s.i, t + (x.mid + u))
    ensures x.ps.conj(s) == ConjReading(x.ps, s, And(l, r), Both(x.cost(l), x.cost(r)), |t| + |x.mid| + |u|)
  {
    var c, d, k := x.cost(l), x.cost(r), |x.mid|;
    var s1 := Past(s, c, |t|);
    var s2 := s1.(i := s1.i + k);
    ThreeParts(x.argv, s.i, t, x.mid, u);
    NextConjunct(x, s1, r, k);
    assert ConjAt(x, l, s) && PrimaryAt(x, r, s2);
    ApplyConj(x, s, l, c, |t|, k, r, d, |u|, s1, s2);
  }

  /** Conjunctions associate to the left: what was read becomes the left operand. */
  lemma {:induction false} AndCase(x: Setting, l: Expr, r: Expr, s: PState)
    requires TextRules(x) && ConjRules(x) && ReadsConj(x, l) && ReadsPrimary(x, r)
    ensures ConjAt(x, And(l, r), s)
  {
    var t, u := x.text(l, 1), x.text(r, 2);
    assert AndWritten(x, l, r);
    if Stands(x.argv, s.i, t + (x.mid + u)) { AndAt(x, l, r, t, u, s); }
  }

  lemma {:induction false} ApplyDisj(
    x: Setting, s: PState, l: Expr, c: Cost, a: nat, r: Expr, d: Cost, b: nat, s1: PState, s2: PState)
    requires DisjRules(x) && s1 == Past(s, c, a) && s2 == s1.(i := s1.i + 1) && s2.i + b <= |x.argv|
    requires x.env.lex(x.argv[s1.i]) == DashO && Stops(x.argv, s2.i + b, x.env)
    requires x.ps.disj(s) == DisjReading(x.ps, s, l, c, a) && x.ps.conj(s2) == ConjReading(x.ps, s2, r, d, b)
    ensures x.ps.disj(s) == DisjReading(x.ps, s, Or(l, r), Both(c, d), a + 1 + b)
  {
    assert DisjRule(x, s, l, c, a, r, d, b);
  }

  lemma {:induction false} OrAt(
    x: Setting, l: Expr, r: Expr, t: seq<string>, mid: seq<string>, u: seq<string>, s: PState)
    requires TextRules(x) && DisjRules(x) && ReadsDisj(x, l) && ReadsConj(x, r)
    requires t == x.text(l, 0) && mid == [x.spell(DashO)] && u == x.text(r, 1)
    requires Stands(x.argv, s.i, t + (mid + u)) && Stops(x.argv, s.i + |t| + 1 + |u|, x.env)
    ensures x.ps.disj(s) == DisjReading(x.ps, s, Or(l, r), Both(x.cost(l), x.cost(r)), |t| + 1 + |u|)
  {
    var c, d := x.cost(l), x.cost(r);
    var s1 := Past(s, c, |t|);
    var s2 := s1.(i := s1.i + 1);
    ThreeParts(x.argv, s.i, t, mid, u);
    StandsAt(x.argv, s1.i, mid, 0);
    assert DisjAt(x, l, s) && ConjAt(x, r, s2);
    ApplyDisj(x, s, l, c, |t|, r, d, |u|, s1, s2);
  }

  lemma {:induction false} OrCase(x: Setting, l: Expr, r: Expr, s: PState)
    requires TextRules(x) && DisjRules(x) && ReadsDisj(x, l) && ReadsConj(x, r)
    ensures DisjAt(x, Or(l, r), s)
  {
    var t, u, mid := x.text(l, 0), x.text(r, 1), [x.spell(DashO)];
    assert OrWritten(x, l, r);
    assert |t + (mid + u)| == |t| + 1 + |u|;
    if Stands(x.argv, s.i, t + (mid + u)) && Stops(x.argv, s.i + |t| + 1 + |u|, x.env) {
      OrAt(x, l, r, t, mid, u, s);
    }
  }

  /** Every expression is read back at each of the three levels. */
  lemma {:induction false} ReadsBack(x: Setting, e: Expr)
    requires Rules(x) && Writable(e, x.env)
    ensures ReadsPrimary(x, e) && ReadsConj(x, e) && ReadsDisj(x, e)
  {
    match e {
      case Prim(l) =>
        forall s ensures PrimaryAt(x, e, s) { LeafCase(x, l, s); }
      case Not(c) =>
        ReadsBack(x, c);
        forall s ensures PrimaryAt(x, e, s) { NotCase(x, c, s); }
      case And(l, r) =>
        ReadsBack(x, l);
        ReadsBack(x, r);
        forall s ensures ConjAt(x, e, s) { AndCase(x, l, r, s); }
      case Or(l, r) =>
        ReadsBack(x, l);
        ReadsBack(x, r);
        forall s ensures DisjAt(x, e, s) { OrCase(x, l, r, s); }
    }
    OtherLevels(x, e);
  }

  /** What is read at the level an expression is written for is read at the others. */
  lemma {:induction false} OtherLevels(x: Setting, e: Expr)
    requires Rules(x)
    requires if e.Or? then ReadsDisj(x, e) else if e.And? then ReadsConj(x, e) else ReadsPrimary(x, e)
    ensures ReadsPrimary(x, e) && ReadsConj(x, e) && ReadsDisj(x, e)
  {
    if e.And? { forall s ensures DisjAt(x, e, s) { DisjAlone(x, e, s); } }
    if e.And? || e.Or? { forall s ensures PrimaryAt(x, e, s) { ParenCase(x, e, s); } }
    if !e.And? { forall s ensures ConjAt(x, e, s) { ConjAlone(x, e, s); } }
    if !e.Or? { forall s ensures DisjAt(x, e, s) { DisjAlone(x, e, s); } }
  }

  // ----- the program's parser has them -----

  function ParsersOf(argv: seq<string>, env: Env): Parsers {
    Parsers(
      (s: PState) => if s.i <= |argv| then ParsePrimary(argv, s, env) else Nothing,
      (s: PState) => if s.i <= |argv| then ParseAnd(argv, s, env) else Nothing,
      (s: PState) => if s.i <= |argv| then ParseOr(argv, s, env) else Nothing,
      (e: Expr, s: PState) => if s.i <= |argv| then AndLoop(argv, e, s, env) else Nothing,
      (e: Expr, s: PState) => if s.i <= |argv| then OrLoop(argv, e, s, env) else Nothing)
  }

  lemma {:induction false} ExecEndReads(argv: seq<string>, i: nat, words: seq<string>, plus: bool)
    requires Stands(argv, i, words + [Ender(plus)])
    requires forall k :: 0 <= k < |words| ==> words[k] != ";" && words[k] != "+"
    ensures ExecEnd(argv, i) == i + |words| && argv[i + |words|] == Ender(plus)
    decreases |words|
  {
    var ts := words + [Ender(plus)];
    StandsAt(argv, i, ts, |words|);
    if words != [] {
      StandsAt(argv, i, ts, 0);
      assert ts == [words[0]] + (words[1..] + [Ender(plus)]);
      StandsSplit(argv, i, [words[0]], words[1..] + [Ender(plus)]);
      ExecEndReads(argv, i + 1, words[1..], plus);
    }
  }

  lemma {:induction false} LeafHead(argv: seq<string>, i: nat, l: Leaf, spell: Spelling, lex: string -> Token, t: Token)
    requires GoodLexer(lex, spell) && Stands(argv, i, LeafText(l, spell))
    requires t == match l case Bare(p) => Test(p) case With(k, _) => TestArg(k) case Exec(dir, _, _) => Command(dir)
    ensures i < |argv| && lex(argv[i]) == t
  {
    StandsAt(argv, i, LeafText(l, spell), 0);
  }

  lemma {:induction false} ExecReads(argv: seq<string>, s: PState, l: Leaf, words: seq<string>, env: Env)
    requires l.Exec? && words == l.argv && WritableLeaf(l, env) && s.i < |argv| && env.lex(argv[s.i]) == Command(l.dir)
    requires Stands(argv, s.i + 1, words + [Ender(l.plus)])
    ensures ParseLeaf(argv, s, env) == Reading(s, Prim(l), LeafCost(l), |words| + 2)
  {
    StandsSplit(argv, s.i + 1, words, [Ender(l.plus)]);
    ExecEndReads(argv, s.i + 1, words, l.plus);
    StandsSlice(argv, s.i + 1, words);
  }

  lemma {:induction false} LeafReads(argv: seq<string>, s: PState, l: Leaf, spell: Spelling, env: Env)
    requires GoodLexer(env.lex, spell) && WritableLeaf(l, env) && Stands(argv, s.i, LeafText(l, spell))
    ensures s.i < |argv| && !env.lex(argv[s.i]).LParen? && !env.lex(argv[s.i]).Bang?
    ensures ParseLeaf(argv, s, env) == Reading(s, Prim(l), LeafCost(l), |LeafText(l, spell)|)
  {
    match l
    case Bare(p) => LeafHead(argv, s.i, l, spell, env.lex, Test(p));
    case With(k, arg) =>
      LeafHead(argv, s.i, l, spell, env.lex, TestArg(k));
      StandsAt(argv, s.i, LeafText(l, spell), 1);
    case Exec(dir, words, plus) =>
      LeafHead(argv, s.i, l, spell, env.lex, Command(dir));
      StandsSplit(argv, s.i, [spell(Command(dir))], words + [Ender(plus)]);
      ExecReads(argv, s, l, words, env);
  }

  /** The program's parser on an argument vector. */
  ghost predicate Real(x: Setting) { GoodLexer(x.env.lex, x.spell) && x.ps == ParsersOf(x.argv, x.env) }

  lemma {:induction false} LeafHolds(x: Setting, s: PState, l: Leaf)
    requires Real(x)
    ensures LeafRule(x, s, l)
  {
    if WritableLeaf(l, x.env) && Stands(x.argv, s.i, LeafText(l, x.spell)) { LeafReads(x.argv, s, l, x.spell, x.env); }
  }

  lemma {:induction false} NotHolds(x: Setting, s: PState, e: Expr, c: Cost, len: nat)
    requires Real(x)
    ensures NotRule(x, s, e, c, len)
  {}

  lemma {:induction false} ParenHolds(x: Setting, s: PState, e: Expr, c: Cost, len: nat)
    requires Real(x)
    ensures ParenRule(x, s, e, c, len)
  {
    var s1 := s.(i := s.i + 1);
    if s1.i + len < |x.argv| && x.env.lex(x.argv[s1.i + len]) == RParen {
      assert OrLoop(x.argv, e, Past(s1, c, len), x.env) == Got(e, Past(s1, c, len));
    }
  }

  lemma {:induction false} ConjStarts(x: Setting, s: PState, e: Expr, c: Cost, len: nat)
    requires Real(x)
    ensures ConjStart(x, s, e, c, len)
  {}

  lemma {:induction false} AndLoopStops(argv: seq<string>, left: Expr, s: PState, env: Env)
    requires s.i <= |argv| && Stops(argv, s.i, env)
    ensures AndLoop(argv, left, s, env) == Got(left, s)
  {}

  /** One round of the conjunction loop. */
  lemma {:induction false} AndRound(argv: seq<string>, left: Expr, s: PState, env: Env, r: Parsed)
    requires s.i <= |argv| && !Stops(argv, SkipAnd(argv, s, env).i, env)
    requires r == ParsePrimary(argv, SkipAnd(argv, s, env), env) && !r.Nothing?
    ensures AndLoop(argv, left, s, env)
         == if r.Failed? || r.s.n >= MAX_EXPRS then Failed
            else AndLoop(argv, And(left, r.e), r.s.(n := r.s.n + 1), env)
  {}

  /** One round of the disjunction loop. */
  lemma {:induction false} OrRound(argv: seq<string>, left: Expr, s: PState, env: Env, r: Parsed)
    requires s.i < |argv| && env.lex(argv[s.i]).DashO? && r == ParseAnd(argv, s.(i := s.i + 1), env) && !r.Nothing?
    ensures OrLoop(argv, left, s, env)
         == if r.Failed? || r.s.n >= MAX_EXPRS then Failed
            else OrLoop(argv, Or(left, r.e), r.s.(n := r.s.n + 1), env)
  {}

  /** Two operands and their operator fit in the pool when each fits behind what came before it. */
  lemma {:induction false} JoinFits(
    s: PState, c: Cost, s2: PState, r: Expr, d: Cost, b: nat, got: Parsed, one: Parsed, two: Parsed)
    requires got == Reading(s2, r, d, b) && s2.n == s.n + c.nodes
    requires one == if got.Failed? || got.s.n >= MAX_EXPRS then Failed else two
    ensures (if Fits(s, c) then one else Failed) == if Fits(s, Both(c, d)) then two else Failed
  {}

  lemma {:induction false} AndJoin(
    argv: seq<string>, env: Env, s: PState, l: Expr, c: Cost, s1: PState, s2: PState, r: Expr, d: Cost, b: nat,
    s3: PState)
    requires s1.i <= |argv| && s1.n == s.n + c.nodes && s2.n == s1.n && SkipAnd(argv, s1, env) == s2
    requires s2.i + b <= |argv| && !Stops(argv, s2.i, env) && ParsePrimary(argv, s2, env) == Reading(s2, r, d, b)
    requires s3 == Past(s2, d, b).(n := s2.n + d.nodes + 1)
    ensures (if Fits(s, c) then AndLoop(argv, l, s1, env) else Failed)
         == if Fits(s, Both(c, d)) then AndLoop(argv, And(l, r), s3, env) else Failed
  {
    var got := Reading(s2, r, d, b);
    AndRound(argv, l, s1, env, got);
    JoinFits(s, c, s2, r, d, b, got, AndLoop(argv, l, s1, env), AndLoop(argv, And(l, r), s3, env));
  }

  lemma {:induction false} ConjHolds(x: Setting, s: PState, l: Expr, c: Cost, a: nat, k: nat, r: Expr, d: Cost, b: nat)
    requires Real(x)
    ensures ConjRule(x, s, l, c, a, k, r, d, b)
  {
    var s1 := Past(s, c, a);
    var s2 := s1.(i := s1.i + k);
    if && s2.i + b <= |x.argv| && SkipAnd(x.argv, s1, x.env) == s2 && !Stops(x.argv, s2.i, x.env)
       && ParsePrimary(x.argv, s2, x.env) == Reading(s2, r, d, b)
    {
      AndJoin(x.argv, x.env, s, l, c, s1, s2, r, d, b, Past(s, Both(c, d), a + k + b));
    }
  }

  lemma {:induction false} DisjStarts(x: Setting, s: PState, e: Expr, c: Cost, len: nat)
    requires Real(x)
    ensures DisjStart(x, s, e, c, len)
  {
    if s.i + len <= |x.argv| && Stops(x.argv, s.i + len, x.env) { AndLoopStops(x.argv, e, Past(s, c, len), x.env); }
  }

  lemma {:induction false} OrJoin(
    argv: seq<string>, env: Env, s: PState, l: Expr, c: Cost, s1: PState, s2: PState, r: Expr, d: Cost, b: nat,
    s3: PState)
    requires s1.i < |argv| && env.lex(argv[s1.i]) == DashO && s1.n == s.n + c.nodes && s2 == s1.(i := s1.i + 1)
    requires s2.i + b <= |argv| && ParseAnd(argv, s2, env) == Reading(s2, r, d, b)
    requires s3 == Past(s2, d, b).(n := s2.n + d.nodes + 1)
    ensures (if Fits(s, c) then OrLoop(argv, l, s1, env) else Failed)
         == if Fits(s, Both(c, d)) then OrLoop(argv, Or(l, r), s3, env) else Failed
  {
    var got := Reading(s2, r, d, b);
    OrRound(argv, l, s1, env, got);
    JoinFits(s, c, s2, r, d, b, got, OrLoop(argv, l, s1, env), OrLoop(argv, Or(l, r), s3, env));
  }

  /** In front of an operator the conjunction parser has read all there is. */
  lemma {:induction false} ConjWhole(x: Setting, s: PState, e: Expr, c: Cost, len: nat)
    requires Real(x) && s.i + len <= |x.argv| && Stops(x.argv, s.i + len, x.env)
    requires x.ps.conj(s) == ConjReading(x.ps, s, e, c, len)
    ensures ParseAnd(x.argv, s, x.env) == Reading(s, e, c, len)
  {
    AndLoopStops(x.argv, e, Past(s, c, len), x.env);
  }

  lemma {:induction false} DisjJoins(
    x: Setting, s: PState, l: Expr, c: Cost, a: nat, r: Expr, d: Cost, b: nat, s1: PState, s2: PState)
    requires Real(x) && s1 == Past(s, c, a) && s2 == s1.(i := s1.i + 1) && s2.i + b <= |x.argv|
    requires x.env.lex(x.argv[s1.i]) == DashO && ParseAnd(x.argv, s2, x.env) == Reading(s2, r, d, b)
    ensures DisjReading(x.ps, s, l, c, a) == DisjReading(x.ps, s, Or(l, r), Both(c, d), a + 1 + b)
  {
    OrJoin(x.argv, x.env, s, l, c, s1, s2, r, d, b, Past(s, Both(c, d), a + 1 + b));
  }

  lemma {:induction false} DisjHolds(x: Setting, s: PState, l: Expr, c: Cost, a: nat, r: Expr, d: Cost, b: nat)
    requires Real(x)
    ensures DisjRule(x, s, l, c, a, r, d, b)
  {
    var s1 := Past(s, c, a);
    var s2 := s1.(i := s1.i + 1);
    if && s2.i + b <= |x.argv| && x.env.lex(x.argv[s1.i]) == DashO && Stops(x.argv, s2.i + b, x.env)
       && x.ps.conj(s2) == ConjReading(x.ps, s2, r, d, b)
    {
      ConjWhole(x, s2, r, d, b);
      DisjJoins(x, s, l, c, a, r, d, b, s1, s2);
    }
  }

  lemma {:induction false} ParserRules(x: Setting)
    requires Real(x)
    ensures PrimaryRules(x) && ConjRules(x) && DisjRules(x)
  {
    assert PrimaryRules(x) by {
      forall s, l ensures LeafRule(x, s, l) { LeafHolds(x, s, l); }
      forall s, e, c, len ensures NotRule(x, s, e, c, len) { NotHolds(x, s, e, c, len); }
      forall s, e, c, len ensures ParenRule(x, s, e, c, len) { ParenHolds(x, s, e, c, len); }
    }
    assert ConjRules(x) by {
      forall s, e, c, len ensures ConjStart(x, s, e, c, len) { ConjStarts(x, s, e, c, len); }
      forall s, l, c, a, k, r, d, b ensures ConjRule(x, s, l, c, a, k, r, d, b) {
        ConjHolds(x, s, l, c, a, k, r, d, b);
      }
    }
    assert DisjRules(x) by {
      forall s, e, c, len ensures DisjStart(x, s, e, c, len) { DisjStarts(x, s, e, c, len); }
      forall s, l, c, a, r, d, b ensures DisjRule(x, s, l, c, a, r, d, b) { DisjHolds(x, s, l, c, a, r, d, b); }
    }
  }

  // ----- so has its way of writing -----

  function Writer(dashA: bool, spell: Spelling): (Expr, Level) -> seq<string> {
    (e: Expr, level: Level) => Text(e, level, dashA, spell)
  }

  lemma {:induction false} WriterRules(x: Setting, dashA: bool)
    requires GoodLexer(x.env.lex, x.spell)
    requires x.mid == Mid(dashA, x.spell) && x.text == Writer(dashA, x.spell) && x.cost == CostOf
    ensures TextRules(x)
  {
    forall e ensures Starts(x, e) { TextHead(e, 2, dashA, x.spell, x.env.lex); }
    forall e ensures Levels(x, e) {}
    forall l ensures LeafWritten(x, l) {}
    forall e ensures NotWritten(x, e) {}
    forall l, r ensures AndWritten(x, l, r) {}
    forall l, r ensures OrWritten(x, l, r) {}
  }

  // ----- the theorem -----

  function Spell(t: Token): string {
    match t
    case LParen => "(" case RParen => ")" case Bang => "!" case DashA => "-a" case DashO => "-o"
    case Test(p) => PlainName(p)
    case TestArg(k) => ArgName(k)
    case Command(dir) => if dir then "-execdir" else "-exec"
    case Other => ""
  }

  lemma {:induction false} LexSpelled(t: Token)
    requires t != Other
    ensures Lex(Spell(t)) == t
  {
    match t
    case Test(p) => LexPlain(p);
    case TestArg(k) => LexArg(k);
    case _ =>
  }

  /** The command line for `e`. */
  function Print(e: Expr, dashA: bool): seq<string> { Text(e, 0, dashA, Spell) }

  /**
   The printed expression parses back to itself, all arguments consumed, with
   the flags its actions set; an expression of more than 512 nodes is refused.
   */
  lemma {:induction false} ParsePrinted(e: Expr, dashA: bool, ok: (ArgKind, string) -> bool)
    requires Writable(e, Env(Lex, ok))
    ensures ParseOr(Print(e, dashA), PState(0, 0, false, false), Env(Lex, ok))
         == if Size(e) > MAX_EXPRS then Failed
            else Got(e, PState(|Print(e, dashA)|, Size(e), HasAction(e), HasDelete(e)))
  {
    forall t: Token | t != Other ensures Lex(Spell(t)) == t { LexSpelled(t); }
    ReadsWhole(e, dashA, Spell, Env(Lex, ok), Print(e, dashA));
  }

  lemma {:induction false} ReadsWhole(e: Expr, dashA: bool, spell: Spelling, env: Env, argv: seq<string>)
    requires GoodLexer(env.lex, spell) && Writable(e, env) && argv == Text(e, 0, dashA, spell)
    ensures ParseOr(argv, PState(0, 0, false, false), env)
         == Reading(PState(0, 0, false, false), e, CostOf(e), |argv|)
  {
    var s := PState(0, 0, false, false);
    var x := Setting(argv, env, spell, Mid(dashA, spell), Writer(dashA, spell), CostOf, ParsersOf(argv, env));
    WriterRules(x, dashA);
    ParserRules(x);
    ReadsBack(x, e);
    DisjWhole(x, s, e);
  }

  lemma {:induction false} DisjWhole(x: Setting, s: PState, e: Expr)
    requires Real(x) && ReadsDisj(x, e) && s.i == 0 && x.argv == x.text(e, 0)
    ensures ParseOr(x.argv, s, x.env) == Reading(s, e, x.cost(e), |x.argv|)
  {
    var end := Past(s, x.cost(e), |x.argv|);
    assert Stands(x.argv, s.i, x.text(e, 0)) && Stops(x.argv, s.i + |x.argv|, x.env);
    assert DisjAt(x, e, s);
    assert OrLoop(x.argv, e, end, x.env) == Got(e, end);
  }
}
