/** The parser of user/find.c as the program runs it: methods over shared position, pool and flags. */
module FindParser {
  import opened FindParse

  /** `exit(1)`, NULL, or a tree. */
  datatype Outcome = Exit | Null | Tree(e: Expr)

  /** The outcome and the new state are what the parser function says. */
  predicate Agrees(p: Parsed, r: Outcome, before: PState, after: PState) {
    match p
    case Failed => r.Exit?
    case Nothing => r.Null? && after == before
    case Got(e, s) => r == Tree(e) && after == s
  }

  class Parser {
    const argv: seq<string>
    const env: Env
    var i: nat
    var n: nat
    var action: bool
    var depth: bool

    constructor (argv: seq<string>, env: Env)
      ensures this.argv == argv && this.env == env && State() == PState(0, 0, false, false)
    {
      this.argv, this.env := argv, env;
      i, n, action, depth := 0, 0, false, false;
    }

    function State(): PState
      reads this
    {
      PState(i, n, action, depth)
    }

    /** Take a node for `e`, or exit when all 512 are in use. */
    method AllocExpr(e: Expr) returns (r: Outcome)
      modifies this`n
      ensures Agrees(Alloc(e, old(State())), r, old(State()), State())
    {
      if n >= MAX_EXPRS { return Exit; }
      n := n + 1;
      return Tree(e);
    }

    method ParseTest() returns (r: Outcome)
      requires i < |argv|
      modifies this
      ensures Agrees(ParseLeaf(argv, old(State()), env), r, old(State()), State())
    {
      match env.lex(argv[i])
      case TestArg(k) =>
        i := i + 1;
        if i == |argv| || !Accepts(env, k, argv[i]) { return Exit; }
        action := action || k.Printf?;
        var arg := argv[i];
        i := i + 1;
        r := AllocExpr(Prim(With(k, arg)));
      case Test(p) =>
        i := i + 1;
        action := action || IsAction(Bare(p));
        depth := depth || p.Delete?;
        r := AllocExpr(Prim(Bare(p)));
      case Command(dir) => r := ParseExec(dir);
      case _ => r := Null;
    }

    /** `-exec` and `-execdir`: everything up to `;` or `+` is the command. */
    method ParseExec(dir: bool) returns (r: Outcome)
      requires i < |argv| && env.lex(argv[i]) == Command(dir)
      modifies this
      ensures Agrees(ParseLeaf(argv, old(State()), env), r, old(State()), State())
    {
      i := i + 1;
      action := true;
      var start, plus := i, false;
      SkipCommand();
      var words := argv[start..i];
      if i < |argv| {
        plus := argv[i] == "+";
        i := i + 1;
      }
      r := AllocExpr(Prim(Exec(dir, words, plus)));
    }

    method SkipCommand()
      requires i <= |argv|
      modifies this`i
      ensures i == ExecEnd(argv, old(i))
    {
      while i < |argv| && argv[i] != ";" && argv[i] != "+"
        invariant old(i) <= i <= |argv| && ExecEnd(argv, i) == ExecEnd(argv, old(i))
      {
        i := i + 1;
      }
    }

    method Primary() returns (r: Outcome)
      requires i <= |argv|
      modifies this
      ensures Agrees(ParsePrimary(argv, old(State()), env), r, old(State()), State())
      decreases |argv| - i, 0
    {
      if i == |argv| { return Null; }
      var t := env.lex(argv[i]);
      if t.LParen? {
        i := i + 1;
        r := Disjunction();
        if !r.Tree? { return Exit; }
        if i == |argv| || !env.lex(argv[i]).RParen? { return Exit; }
        i := i + 1;
      } else if t.Bang? {
        i := i + 1;
        r := Primary();
        if !r.Tree? { return Exit; }
        r := AllocExpr(Not(r.e));
      } else {
        r := ParseTest();
      }
    }

    method Conjunction() returns (r: Outcome)
      requires i <= |argv|
      modifies this
      ensures Agrees(ParseAnd(argv, old(State()), env), r, old(State()), State())
      decreases |argv| - i, 2
    {
      r := Primary();
      if !r.Tree? { return; }
      ghost var whole := ParseAnd(argv, old(State()), env);
      while i < |argv|
        invariant r.Tree? && old(i) < i <= |argv| && AndLoop(argv, r.e, State(), env) == whole
        decreases |argv| - i
      {
        var more;
        r, more := NextConjunct(r.e);
        if !more { return; }
      }
    }

    /** A round of the loop: one more conjunct, or the end of the conjunction. */
    method NextConjunct(left: Expr) returns (r: Outcome, more: bool)
      requires i < |argv|
      modifies this
      ensures var all := AndLoop(argv, left, old(State()), env);
              if more then r.Tree? && old(i) < i <= |argv| && AndLoop(argv, r.e, State(), env) == all
              else Agrees(all, r, old(State()), State())
      decreases |argv| - i, 1
    {
      r, more := Tree(left), false;
      if env.lex(argv[i]).DashA? { i := i + 1; }
      if Stops(argv, i, env) { return; }
      var right := Primary();
      if right.Exit? { return Exit, false; }
      if right.Null? { return; }
      r := AllocExpr(And(left, right.e));
      more := r.Tree?;
    }

    method Disjunction() returns (r: Outcome)
      requires i <= |argv|
      modifies this
      ensures Agrees(ParseOr(argv, old(State()), env), r, old(State()), State())
      decreases |argv| - i, 4
    {
      r := Conjunction();
      if !r.Tree? { return; }
      while i < |argv| && env.lex(argv[i]).DashO?
        invariant r.Tree? && old(i) < i <= |argv|
        invariant OrLoop(argv, r.e, State(), env) == ParseOr(argv, old(State()), env)
        decreases |argv| - i
      {
        i := i + 1;
        var right := Conjunction();
        if !right.Tree? { return Exit; }
        r := AllocExpr(Or(r.e, right.e));
        if r.Exit? { return; }
      }
    }
  }
}
