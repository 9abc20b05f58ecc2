/**
 Natural-order name comparison of user/ls.c: digit runs compare as numbers, and
 everything else compares byte by byte.
 */
module LsVersion {
  import opened Bytes

  const ZERO: Byte := 48

  // ----- the comparison as the program computes it -----

  function Zeros(s: seq<Byte>): (n: nat)
    ensures n <= |s|
  {
    if s != [] && s[0] == ZERO then 1 + Zeros(s[1..]) else 0
  }

  /** The length of the digit run at the front. */
  function RunLen(s: seq<Byte>): (n: nat)
    ensures n <= |s|
  {
    if s != [] && IsDigit(s[0]) then 1 + RunLen(s[1..]) else 0
  }

  /** Digits, up to the end or something else. */
  lemma {:induction false} RunLenExact(s: seq<Byte>)
    ensures forall i :: 0 <= i < RunLen(s) ==> IsDigit(s[i])
    ensures RunLen(s) < |s| ==> !IsDigit(s[RunLen(s)])
  {
    if s != [] && IsDigit(s[0]) {
      RunLenExact(s[1..]);
      assert forall i :: 1 <= i < |s| ==> s[i] == s[1..][i - 1];
    }
  }

  /** The difference at the first place where two digit strings of one length differ. */
  function DigitsDiff(x: seq<Byte>, y: seq<Byte>): int
    requires |x| == |y|
  {
    if x == [] then 0 else if x[0] != y[0] then x[0] - y[0] else DigitsDiff(x[1..], y[1..])
  }

  /** Two digit runs: significant length, then digits, then leading zeros. */
  function RunDiff(x: seq<Byte>, y: seq<Byte>): int {
    var p, q := x[Zeros(x)..], y[Zeros(y)..];
    if |p| != |q| then |p| - |q|
    else if DigitsDiff(p, q) != 0 then DigitsDiff(p, q)
    else |x| - |y|
  }

  function VersionCompare(a: seq<Byte>, b: seq<Byte>): int
    decreases |a|
  {
    if a == [] || b == [] then At(a, 0) - At(b, 0)
    else if IsDigit(a[0]) && IsDigit(b[0]) then
      var ra, rb := RunLen(a), RunLen(b);
      if RunDiff(a[..ra], b[..rb]) != 0 then RunDiff(a[..ra], b[..rb])
      else VersionCompare(a[ra..], b[rb..])
    else if a[0] != b[0] then a[0] - b[0]
    else VersionCompare(a[1..], b[1..])
  }

  // ----- the loop of the program -----

  method SkipZeros(s: seq<Byte>, i: nat) returns (k: nat)
    requires i <= |s|
    ensures k == i + Zeros(s[i..])
  {
    k := i;
    while At(s, k) == ZERO
      invariant i <= k <= |s| && k + Zeros(s[k..]) == i + Zeros(s[i..])
      decreases |s| - k
    {
      assert s[k..][1..] == s[k + 1..];
      k := k + 1;
    }
  }

  method SkipDigits(s: seq<Byte>, i: nat) returns (k: nat)
    requires i <= |s|
    ensures k == i + RunLen(s[i..])
  {
    k := i;
    while IsDigit(At(s, k))
      invariant i <= k <= |s| && k + RunLen(s[k..]) == i + RunLen(s[i..])
      decreases |s| - k
    {
      assert s[k..][1..] == s[k + 1..];
      k := k + 1;
    }
  }

  /** The zeros of a run are zeros of the string, and what follows them is the rest of the run. */
  lemma {:induction false} RunParts(s: seq<Byte>)
    ensures Zeros(s) <= RunLen(s) && Zeros(s[..RunLen(s)]) == Zeros(s)
    ensures RunLen(s[Zeros(s)..]) == RunLen(s) - Zeros(s)
  {
    if s != [] && s[0] == ZERO {
      RunParts(s[1..]);
      assert s[..RunLen(s)][1..] == s[1..][..RunLen(s[1..])];
      assert s[Zeros(s)..] == s[1..][Zeros(s[1..])..];
    } else {
      assert s[0..] == s;
    }
  }

  lemma {:induction false} DigitsDiffFrom(x: seq<Byte>, y: seq<Byte>, k: nat)
    requires |x| == |y| && k <= |x| && x[..k] == y[..k]
    ensures DigitsDiff(x, y) == DigitsDiff(x[k..], y[k..])
  {
    if k > 0 {
      assert x[0] == x[..k][0] && y[0] == y[..k][0];
      assert x[1..][..k - 1] == x[..k][1..] && y[1..][..k - 1] == y[..k][1..];
      DigitsDiffFrom(x[1..], y[1..], k - 1);
      assert x[1..][k - 1..] == x[k..] && y[1..][k - 1..] == y[k..];
    } else {
      assert x[0..] == x && y[0..] == y;
    }
  }

  /** The comparison of two digit strings of one length. */
  method FirstDiff(x: seq<Byte>, y: seq<Byte>) returns (d: int)
    requires |x| == |y|
    ensures d == DigitsDiff(x, y)
  {
    var k := 0;
    while k < |x|
      invariant 0 <= k <= |x| && x[..k] == y[..k]
    {
      if x[k] != y[k] {
        DigitsDiffFrom(x, y, k);
        return x[k] as int - y[k] as int;
      }
      k := k + 1;
    }
    DigitsDiffFrom(x, y, k);
    d := 0;
  }

  /** Where the two pointer walks over the run at the front of `s` end. */
  lemma {:induction false} RunEnds(s: seq<Byte>, z: nat, n: nat)
    requires z == Zeros(s) && n == z + RunLen(s[z..])
    ensures n == RunLen(s) <= |s| && Zeros(s[..n]) == z
  {
    RunParts(s);
  }

  lemma {:induction false} DropTwice(a: seq<Byte>, i: nat, z: nat)
    requires i + z <= |a|
    ensures a[i..][z..] == a[i + z..]
  {}

  lemma {:induction false} SliceTwice(a: seq<Byte>, i: nat, z: nat, n: nat)
    requires i <= |a| && z <= n <= |a| - i
    ensures a[i..][..n] == a[i..i + n] && a[i..][z..] == a[i + z..] && a[i..i + n][z..] == a[i + z..i + n]
  {}

  lemma {:induction false} RunWalk(a: seq<Byte>, i: nat, i1: nat, ae: nat)
    requires i <= |a| && i1 == i + Zeros(a[i..]) && ae == i1 + RunLen(a[i1..])
    ensures ae == i + RunLen(a[i..])
    ensures i <= i1 <= ae <= |a| && Zeros(a[i..ae]) == i1 - i
    ensures a[i..ae] == a[i..][..ae - i] && a[i..ae][i1 - i..] == a[i1..ae]
  {
    DropTwice(a, i, i1 - i);
    RunEnds(a[i..], i1 - i, ae - i);
    SliceTwice(a, i, i1 - i, ae - i);
  }

  /** One pointer over its run: where the zeros and the digits end. */
  method WalkRun(a: seq<Byte>, i: nat) returns (i1: nat, ae: nat)
    requires i <= |a|
    ensures ae == i + RunLen(a[i..])
    ensures i <= i1 <= ae <= |a| && Zeros(a[i..ae]) == i1 - i && a[i..ae][i1 - i..] == a[i1..ae]
  {
    i1 := SkipZeros(a, i);
    ae := SkipDigits(a, i1);
    RunWalk(a, i, i1, ae);
  }

  /** Both pointers stand at a digit: the inner loops compare the two runs. */
  method CompareRuns(a: seq<Byte>, i: nat, b: seq<Byte>, j: nat) returns (d: int, ae: nat, be: nat)
    requires i <= |a| && j <= |b|
    ensures ae == i + RunLen(a[i..]) && be == j + RunLen(b[j..])
    ensures d == RunDiff(a[i..ae], b[j..be])
  {
    var i1, j1;
    i1, ae := WalkRun(a, i);
    j1, be := WalkRun(b, j);
    if ae - i1 != be - j1 { return (ae - i1) - (be - j1), ae, be; }
    d := FirstDiff(a[i1..ae], b[j1..be]);
    if d == 0 { d := (ae - i) - (be - j); }
  }

  /** What is left to compare decides. */
  ghost predicate Decides(a: seq<Byte>, i: nat, b: seq<Byte>, j: nat, r: int) {
    i <= |a| && j <= |b| && VersionCompare(a[i..], b[j..]) == r
  }

  lemma {:induction false} RunsDecide(a: seq<Byte>, i: nat, ae: nat, b: seq<Byte>, j: nat, be: nat, d: int, r: int)
    requires Decides(a, i, b, j, r) && i < |a| && j < |b| && IsDigit(a[i]) && IsDigit(b[j])
    requires ae == i + RunLen(a[i..]) && be == j + RunLen(b[j..]) && d == RunDiff(a[i..ae], b[j..be])
    ensures if d != 0 then r == d else i < ae && Decides(a, ae, b, be, r)
  {
    SliceTwice(a, i, ae - i, ae - i);
    SliceTwice(b, j, be - j, be - j);
  }

  lemma {:induction false} BytesDecide(a: seq<Byte>, i: nat, b: seq<Byte>, j: nat, r: int)
    requires Decides(a, i, b, j, r) && i < |a| && j < |b| && !(IsDigit(a[i]) && IsDigit(b[j]))
    ensures if a[i] != b[j] then r == a[i] as int - b[j] as int else Decides(a, i + 1, b, j + 1, r)
  {
    SliceTwice(a, i, 1, 1);
    SliceTwice(b, j, 1, 1);
  }

  lemma {:induction false} EndDecides(a: seq<Byte>, i: nat, b: seq<Byte>, j: nat, r: int)
    requires Decides(a, i, b, j, r) && (i == |a| || j == |b|)
    ensures r == At(a, i) - At(b, j)
  {}

  method CompareVersions(a: seq<Byte>, b: seq<Byte>) returns (r: int)
    ensures r == VersionCompare(a, b)
  {
    ghost var all := VersionCompare(a, b);
    var i: nat, j: nat := 0, 0;
    assert a[0..] == a && b[0..] == b;
    while i < |a| && j < |b|
      invariant Decides(a, i, b, j, all)
      decreases |a| - i
    {
      if IsDigit(a[i]) && IsDigit(b[j]) {
        var d, ae, be := CompareRuns(a, i, b, j);
        RunsDecide(a, i, ae, b, j, be, d, all);
        if d != 0 { return d; }
        i, j := ae, be;
      } else {
        BytesDecide(a, i, b, j, all);
        if a[i] != b[j] { return a[i] as int - b[j] as int; }
        i, j := i + 1, j + 1;
      }
    }
    EndDecides(a, i, b, j, all);
    r := At(a, i) - At(b, j);
  }

  // ----- digit runs as numbers -----

  predicate Digits(x: seq<Byte>) { forall i :: 0 <= i < |x| ==> IsDigit(x[i]) }

  function Pow10(n: nat): (p: nat)
    ensures p >= 1
  {
    if n == 0 then 1 else 10 * Pow10(n - 1)
  }

  /** The number a digit string writes in decimal. */
  function Value(x: seq<Byte>): nat
    requires Digits(x)
  {
    if x == [] then 0 else (x[0] - ZERO) * Pow10(|x| - 1) + Value(x[1..])
  }

  lemma {:induction false} ValueBelow(x: seq<Byte>)
    requires Digits(x)
    ensures Value(x) < Pow10(|x|)
  {
    if x != [] {
      ValueBelow(x[1..]);
      LeadDecides(x[0] - ZERO, 10, Pow10(|x| - 1), Value(x[1..]), 0);
    }
  }

  lemma {:induction false} PowMonotone(m: nat, n: nat)
    requires m <= n
    ensures Pow10(m) <= Pow10(n)
  {
    if m < n { PowMonotone(m, n - 1); }
  }

  /** The leading digit decides. */
  lemma {:induction false} LeadDecides(c: nat, d: nat, t: nat, v: nat, w: nat)
    requires c < d && v < t
    ensures c * t + v < d * t + w
  {
    assert (c + 1) * t <= d * t;
  }

  /** Without a leading zero, a longer number is a larger one. */
  lemma {:induction false} LongerIsLarger(p: seq<Byte>, q: seq<Byte>)
    requires Digits(p) && Digits(q) && |p| < |q| && q[0] != ZERO
    ensures Value(p) < Value(q)
  {
    var t := Pow10(|q| - 1);
    ValueBelow(p);
    PowMonotone(|p|, |q| - 1);
    LeadDecides(0, q[0] - ZERO, t, Value(p), Value(q[1..]));
  }

  /** Digit strings of one length order as their numbers do. */
  lemma {:induction false} DigitsDiffValue(p: seq<Byte>, q: seq<Byte>)
    requires Digits(p) && Digits(q) && |p| == |q|
    ensures DigitsDiff(p, q) < 0 <==> Value(p) < Value(q)
    ensures DigitsDiff(p, q) > 0 <==> Value(p) > Value(q)
    ensures Value(p) == Value(q) ==> p == q
  {
    if p != [] {
      var t, v, w := Pow10(|p| - 1), Value(p[1..]), Value(q[1..]);
      ValueBelow(p[1..]);
      ValueBelow(q[1..]);
      if p[0] < q[0] {
        LeadDecides(p[0] - ZERO, q[0] - ZERO, t, v, w);
      } else if q[0] < p[0] {
        LeadDecides(q[0] - ZERO, p[0] - ZERO, t, w, v);
      } else {
        DigitsDiffValue(p[1..], q[1..]);
        assert p == [p[0]] + p[1..] && q == [q[0]] + q[1..];
      }
    }
  }

  /** Leading zeros do not count, and none is left behind them. */
  lemma {:induction false} StripZeros(x: seq<Byte>)
    requires Digits(x)
    ensures var p := x[Zeros(x)..]; Digits(p) && Value(p) == Value(x) && (p != [] ==> p[0] != ZERO)
  {
    if x != [] && x[0] == ZERO {
      StripZeros(x[1..]);
      assert x[Zeros(x)..] == x[1..][Zeros(x[1..])..];
    } else {
      assert x[0..] == x;
    }
  }

  /** Two runs order by number, and runs of one number by their leading zeros. */
  lemma {:induction false} RunDiffValue(x: seq<Byte>, y: seq<Byte>)
    requires Digits(x) && Digits(y)
    ensures RunDiff(x, y) < 0 <==> Value(x) < Value(y) || (Value(x) == Value(y) && |x| < |y|)
    ensures RunDiff(x, y) > 0 <==> Value(x) > Value(y) || (Value(x) == Value(y) && |x| > |y|)
  {
    StripZeros(x);
    StripZeros(y);
    var p, q := x[Zeros(x)..], y[Zeros(y)..];
    if |p| < |q| { LongerIsLarger(p, q); }
    else if |q| < |p| { LongerIsLarger(q, p); }
    else { DigitsDiffValue(p, q); }
  }

  // ----- names as sequences of tokens -----

  /** A digit run, by its number and its length, or any other byte. */
  datatype Token = Num(value: nat, width: nat) | Other(c: Byte)

  function Tokens(s: seq<Byte>): seq<Token>
    decreases |s|
  {
    if s == [] then []
    else if IsDigit(s[0]) then
      RunLenExact(s);
      [Num(Value(s[..RunLen(s)]), RunLen(s))] + Tokens(s[RunLen(s)..])
    else [Other(s[0])] + Tokens(s[1..])
  }

  /** Numbers by value and then width; other bytes by code; numbers stand where the digits stand. */
  predicate TokenLess(t: Token, u: Token) {
    match (t, u)
    case (Num(v, m), Num(w, n)) => v < w || (v == w && m < n)
    case (Num(_, _), Other(d)) => ZERO <= d
    case (Other(c), Num(_, _)) => c < ZERO
    case (Other(c), Other(d)) => c < d
  }

  /** The dictionary order over token sequences. */
  predicate Before(ts: seq<Token>, us: seq<Token>)
    decreases |ts|
  {
    if us == [] then false
    else if ts == [] then true
    else if ts[0] == us[0] then Before(ts[1..], us[1..])
    else TokenLess(ts[0], us[0])
  }

  lemma {:induction false} BeforeTotal(ts: seq<Token>, us: seq<Token>)
    ensures !(Before(ts, us) && Before(us, ts))
    ensures Before(ts, us) || Before(us, ts) || ts == us
    decreases |ts|
  {
    if ts != [] && us != [] && ts[0] == us[0] {
      BeforeTotal(ts[1..], us[1..]);
      assert ts == [ts[0]] + ts[1..] && us == [us[0]] + us[1..];
    }
  }

  lemma {:induction false} BeforeTransitive(ts: seq<Token>, us: seq<Token>, vs: seq<Token>)
    requires Before(ts, us) && Before(us, vs)
    ensures Before(ts, vs)
    decreases |ts|
  {
    if ts != [] && ts[0] == us[0] && us[0] == vs[0] { BeforeTransitive(ts[1..], us[1..], vs[1..]); }
  }

  lemma {:induction false} BeforeCons(t: Token, ts: seq<Token>, u: Token, us: seq<Token>)
    ensures Before([t] + ts, [u] + us) <==> (if t == u then Before(ts, us) else TokenLess(t, u))
  {
    assert ([t] + ts)[1..] == ts && ([u] + us)[1..] == us;
  }

  /** The comparison is the dictionary order of the tokens. */
  lemma {:induction false} VersionMeaning(a: seq<Byte>, b: seq<Byte>)
    requires CString(a) && CString(b)
    ensures VersionCompare(a, b) < 0 <==> Before(Tokens(a), Tokens(b))
    ensures VersionCompare(a, b) > 0 <==> Before(Tokens(b), Tokens(a))
    decreases |a|
  {
    if a != [] && b != [] {
      if IsDigit(a[0]) && IsDigit(b[0]) {
        var x, y, ra, rb := a[..RunLen(a)], b[..RunLen(b)], a[RunLen(a)..], b[RunLen(b)..];
        RunLenExact(a);
        RunLenExact(b);
        RunDiffValue(x, y);
        BothCons(Num(Value(x), |x|), Tokens(ra), Num(Value(y), |y|), Tokens(rb));
        if RunDiff(x, y) == 0 { VersionMeaning(ra, rb); }
      } else if a[0] == b[0] {
        BothCons(Other(a[0]), Tokens(a[1..]), Other(b[0]), Tokens(b[1..]));
        VersionMeaning(a[1..], b[1..]);
      }
    }
  }

  lemma {:induction false} BothCons(t: Token, ts: seq<Token>, u: Token, us: seq<Token>)
    ensures Before([t] + ts, [u] + us) <==> (if t == u then Before(ts, us) else TokenLess(t, u))
    ensures Before([u] + us, [t] + ts) <==> (if t == u then Before(us, ts) else TokenLess(u, t))
  {
    BeforeCons(t, ts, u, us);
    BeforeCons(u, us, t, ts);
  }

  /** A name is determined by its tokens. */
  lemma {:induction false} TokensInjective(a: seq<Byte>, b: seq<Byte>)
    requires Tokens(a) == Tokens(b)
    ensures a == b
    decreases |a|
  {
    if a != [] && b != [] {
      var ts, us := Tokens(a), Tokens(b);
      if IsDigit(a[0]) {
        var x, y, ra, rb := a[..RunLen(a)], b[..RunLen(b)], a[RunLen(a)..], b[RunLen(b)..];
        RunLenExact(a);
        RunLenExact(b);
        assert ts[0] == us[0] && ts[1..] == Tokens(ra);
        assert us[1..] == Tokens(rb);
        DigitsDiffValue(x, y);
        TokensInjective(ra, rb);
        assert a == x + ra && b == y + rb;
      } else {
        assert ts[0] == us[0] && ts[1..] == Tokens(a[1..]);
        assert us[1..] == Tokens(b[1..]);
        TokensInjective(a[1..], b[1..]);
        assert a == [a[0]] + a[1..] && b == [b[0]] + b[1..];
      }
    }
  }

  /** Natural order is a total order on names: equal only for the same name, and never contradicting itself. */
  lemma {:induction false} VersionOrder(a: seq<Byte>, b: seq<Byte>, c: seq<Byte>)
    requires CString(a) && CString(b) && CString(c)
    ensures VersionCompare(a, b) < 0 <==> VersionCompare(b, a) > 0
    ensures VersionCompare(a, b) == 0 <==> a == b
    ensures VersionCompare(a, b) <= 0 && VersionCompare(b, c) <= 0 ==> VersionCompare(a, c) <= 0
  {
    VersionMeaning(a, b);
    VersionMeaning(b, a);
    VersionMeaning(b, c);
    VersionMeaning(a, c);
    var ta, tb, tc := Tokens(a), Tokens(b), Tokens(c);
    BeforeTotal(ta, tb);
    BeforeTotal(tb, tc);
    BeforeTotal(ta, tc);
    if ta == tb { TokensInjective(a, b); }
    if tb == tc { TokensInjective(b, c); }
    if Before(ta, tb) && Before(tb, tc) { BeforeTransitive(ta, tb, tc); }
  }
}
