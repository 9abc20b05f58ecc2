/**
 The expression parser of user/find.c: recursive descent over the argument
 vector into a pool of 512 expression nodes.
 */
module FindParse {
  import opened Bytes

  const MAX_EXPRS := 512

  /** Primaries without an argument. */
  datatype Plain =
    | Empty | Readable | Writable | Executable | True | False
    | Print | Print0 | Delete | Ls | Prune | Quit

  /** Primaries with one argument. */
  datatype ArgKind =
    | Name | IName | Path | IPath | Type | Size | Perm | Newer
    | MTime | ATime | CTime | MMin | AMin | CMin | Links | Printf

  datatype Leaf =
    | Bare(p: Plain)
    | With(k: ArgKind, arg: string)
    | Exec(dir: bool, argv: seq<string>, plus: bool)

  datatype Expr = Prim(l: Leaf) | Not(e: Expr) | And(left: Expr, right: Expr) | Or(left: Expr, right: Expr)

  // ----- keywords -----

  function PlainName(p: Plain): string {
    match p
    case Empty => "-empty" case Readable => "-readable" case Writable => "-writable"
    case Executable => "-executable" case True => "-true" case False => "-false"
    case Print => "-print" case Print0 => "-print0" case Delete => "-delete"
    case Ls => "-ls" case Prune => "-prune" case Quit => "-quit"
  }

  function ArgName(k: ArgKind): string {
    match k
    case Name => "-name" case IName => "-iname" case Path => "-path" case IPath => "-ipath"
    case Type => "-type" case Size => "-size" case Perm => "-perm" case Newer => "-newer"
    case MTime => "-mtime" case ATime => "-atime" case CTime => "-ctime"
    case MMin => "-mmin" case AMin => "-amin" case CMin => "-cmin"
    case Links => "-links" case Printf => "-printf"
  }

  function PlainOf(t: string): Option<Plain> {
    if t == "-empty" then Some(Empty)
    else if t == "-readable" then Some(Readable)
    else if t == "-writable" then Some(Writable)
    else if t == "-executable" then Some(Executable)
    else if t == "-true" then Some(True)
    else if t == "-false" then Some(False)
    else if t == "-print" then Some(Print)
    else if t == "-print0" then Some(Print0)
    else if t == "-delete" then Some(Delete)
    else if t == "-ls" then Some(Ls)
    else if t == "-prune" then Some(Prune)
    else if t == "-quit" then Some(Quit)
    else None
  }

  function ArgOf(t: string): Option<ArgKind> {
    if t == "-name" then Some(Name)
    else if t == "-iname" then Some(IName)
    else if t == "-path" || t == "-wholename" then Some(Path)
    else if t == "-ipath" || t == "-iwholename" then Some(IPath)
    else if t == "-type" then Some(Type)
    else if t == "-size" then Some(Size)
    else if t == "-perm" then Some(Perm)
    else if t == "-newer" then Some(Newer)
    else if t == "-mtime" then Some(MTime)
    else if t == "-atime" then Some(ATime)
    else if t == "-ctime" then Some(CTime)
    else if t == "-mmin" then Some(MMin)
    else if t == "-amin" then Some(AMin)
    else if t == "-cmin" then Some(CMin)
    else if t == "-links" then Some(Links)
    else if t == "-printf" then Some(Printf)
    else None
  }

  /** What an argument is when the parser looks for an operator or a primary. */
  datatype Token =
    | LParen | RParen | Bang | DashA | DashO
    | Test(p: Plain) | TestArg(k: ArgKind) | Command(dir: bool) | Other

  function Lex(t: string): Token {
    if t == "(" then LParen
    else if t == ")" then RParen
    else if t == "!" || t == "-not" then Bang
    else if t == "-a" || t == "-and" then DashA
    else if t == "-o" || t == "-or" then DashO
    else if ArgOf(t).Some? then TestArg(ArgOf(t).value)
    else if PlainOf(t).Some? then Test(PlainOf(t).value)
    else if t == "-exec" then Command(false)
    else if t == "-execdir" then Command(true)
    else Other
  }

  lemma {:induction false} PlainTakesNone(p: Plain)
    ensures ArgOf(PlainName(p)) == None
  {}

  lemma {:induction false} PlainNamed(p: Plain)
    ensures PlainOf(PlainName(p)) == Some(p)
  {}

  lemma {:induction false} LexPlain(p: Plain)
    ensures Lex(PlainName(p)) == Test(p)
  {
    PlainTakesNone(p);
    PlainNamed(p);
  }

  lemma {:induction false} LexModified(k: ArgKind)
    requires k.MTime? || k.MMin?
    ensures Lex(ArgName(k)) == TestArg(k)
  {}

  lemma {:induction false} LexAccessed(k: ArgKind)
    requires k.ATime? || k.AMin?
    ensures Lex(ArgName(k)) == TestArg(k)
  {}

  lemma {:induction false} LexChanged(k: ArgKind)
    requires k.CTime? || k.CMin?
    ensures Lex(ArgName(k)) == TestArg(k)
  {}

  lemma {:induction false} LexNewer(k: ArgKind)
    requires k.Newer? || k.Perm?
    ensures Lex(ArgName(k)) == TestArg(k)
  {}

  lemma {:induction false} LexLinks()
    ensures Lex(ArgName(Links)) == TestArg(Links)
  {}

  lemma {:induction false} LexPrintf()
    ensures Lex(ArgName(Printf)) == TestArg(Printf)
  {}

  lemma {:induction false} LexArg(k: ArgKind)
    ensures Lex(ArgName(k)) == TestArg(k)
  {
    match k
    case MTime => LexModified(k);
    case MMin => LexModified(k);
    case ATime => LexAccessed(k);
    case AMin => LexAccessed(k);
    case CTime => LexChanged(k);
    case CMin => LexChanged(k);
    case Newer => LexNewer(k);
    case Perm => LexNewer(k);
    case Links => LexLinks();
    case Printf => LexPrintf();
    case _ =>
  }

  // ----- the parser as functions -----

  /** Next argument, nodes taken from the pool, and the two flags that actions set. */
  datatype PState = PState(i: nat, n: nat, action: bool, depth: bool)

  /** `exit(1)`, a NULL result (nothing consumed), or a tree and the state behind it. */
  datatype Parsed = Failed | Nothing | Got(e: Expr, s: PState)

  predicate IsAction(l: Leaf) {
    match l
    case Bare(p) => p.Print? || p.Print0? || p.Delete? || p.Ls? || p.Quit?
    case With(k, _) => k.Printf?
    case Exec(_, _, _) => true
  }

  /** How arguments are classified, and which arguments of checked primaries are accepted. */
  datatype Env = Env(lex: string -> Token, ok: (ArgKind, string) -> bool)

  /** Is the argument of this primary checked, and does the check accept it? */
  predicate Accepts(env: Env, k: ArgKind, arg: string) {
    k.Name? || k.IName? || k.Path? || k.IPath? || k.Printf? || env.ok(k, arg)
  }

  /** Take a node from the pool for `e`. */
  function Alloc(e: Expr, s: PState): Parsed {
    if s.n >= MAX_EXPRS then Failed else Got(e, s.(n := s.n + 1))
  }

  /** A leaf whose text ends in front of argument `j`. */
  function AllocLeaf(l: Leaf, s: PState, j: nat): Parsed {
    Alloc(Prim(l), PState(j, s.n, s.action || IsAction(l), s.depth || l == Bare(Delete)))
  }

  /** The argument that ends an `-exec` command, or the end of the vector. */
  function ExecEnd(argv: seq<string>, i: nat): (j: nat)
    requires i <= |argv|
    ensures i <= j <= |argv|
    decreases |argv| - i
  {
    if i == |argv| || argv[i] == ";" || argv[i] == "+" then i else ExecEnd(argv, i + 1)
  }

  /** Tests and actions. */
  function ParseLeaf(argv: seq<string>, s: PState, env: Env): (r: Parsed)
    requires s.i < |argv|
    ensures r.Got? ==> s.i < r.s.i <= |argv|
  {
    var j := s.i + 1;
    match env.lex(argv[s.i])
    case TestArg(k) =>
      if j == |argv| || !Accepts(env, k, argv[j]) then Failed else AllocLeaf(With(k, argv[j]), s, j + 1)
    case Test(p) => AllocLeaf(Bare(p), s, j)
    case Command(dir) =>
      var k := ExecEnd(argv, j);
      AllocLeaf(Exec(dir, argv[j..k], k < |argv| && argv[k] == "+"), s, if k < |argv| then k + 1 else k)
    case _ => Nothing
  }

  function ParsePrimary(argv: seq<string>, s: PState, env: Env): (r: Parsed)
    requires s.i <= |argv|
    ensures r.Got? ==> s.i < r.s.i <= |argv|
    decreases |argv| - s.i, 0
  {
    if s.i == |argv| then Nothing
    else
      var t, next := env.lex(argv[s.i]), s.(i := s.i + 1);
      if t.LParen? then
        match ParseOr(argv, next, env)
        case Got(e, s') => if s'.i < |argv| && env.lex(argv[s'.i]).RParen? then Got(e, s'.(i := s'.i + 1)) else Failed
        case _ => Failed
      else if t.Bang? then
        match ParsePrimary(argv, next, env)
        case Got(e, s') => Alloc(Not(e), s')
        case _ => Failed
      else ParseLeaf(argv, s, env)
  }

  function ParseAnd(argv: seq<string>, s: PState, env: Env): (r: Parsed)
    requires s.i <= |argv|
    ensures r.Got? ==> s.i < r.s.i <= |argv|
    decreases |argv| - s.i, 2
  {
    match ParsePrimary(argv, s, env)
    case Got(e, s') => AndLoop(argv, e, s', env)
    case r => r
  }

  /** The argument behind an optional `-a`. */
  function SkipAnd(argv: seq<string>, s: PState, env: Env): (r: PState)
    requires s.i <= |argv|
    ensures s.i <= r.i <= |argv|
  {
    if s.i < |argv| && env.lex(argv[s.i]).DashA? then s.(i := s.i + 1) else s
  }

  /** A conjunction cannot go on here. */
  predicate Stops(argv: seq<string>, i: nat, env: Env)
    requires i <= |argv|
  {
    i == |argv| || env.lex(argv[i]).DashO? || env.lex(argv[i]).RParen?
  }

  function AndLoop(argv: seq<string>, left: Expr, s: PState, env: Env): (r: Parsed)
    requires s.i <= |argv|
    ensures r.Got? ==> s.i <= r.s.i <= |argv|
    ensures !r.Nothing?
    decreases |argv| - s.i, 1
  {
    var s1 := SkipAnd(argv, s, env);
    if Stops(argv, s1.i, env) then Got(left, s1)
    else
      match ParsePrimary(argv, s1, env)
      case Failed => Failed
      case Nothing => Got(left, s1)
      case Got(e, s2) =>
        match Alloc(And(left, e), s2)
        case Got(e', s3) => AndLoop(argv, e', s3, env)
        case r => r
  }

  function ParseOr(argv: seq<string>, s: PState, env: Env): (r: Parsed)
    requires s.i <= |argv|
    ensures r.Got? ==> s.i < r.s.i <= |argv|
    decreases |argv| - s.i, 4
  {
    match ParseAnd(argv, s, env)
    case Got(e, s') => OrLoop(argv, e, s', env)
    case r => r
  }

  function OrLoop(argv: seq<string>, left: Expr, s: PState, env: Env): (r: Parsed)
    requires s.i <= |argv|
    ensures r.Got? ==> s.i <= r.s.i <= |argv|
    ensures !r.Nothing?
    decreases |argv| - s.i, 3
  {
    if s.i == |argv| || !env.lex(argv[s.i]).DashO? then Got(left, s)
    else
      match ParseAnd(argv, s.(i := s.i + 1), env)
      case Got(e, s2) =>
        (match Alloc(Or(left, e), s2)
         case Got(e', s3) => OrLoop(argv, e', s3, env)
         case r => r)
      case _ => Failed
  }
}
