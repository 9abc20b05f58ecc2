/**
 Backslash escapes in user/printf.c: the decoder `print_escaped`, the piecewise
 staging of escapes in a format, and the payload of `%q`.
 */
module PrintfEscape {
  import opened Bytes

  const BACKSLASH: Byte := 92
  const PERCENT: Byte := 37
  const QUOTE: Byte := 39
  const LOWER_X: Byte := 120
  const LOWER_U: Byte := 117
  const UPPER_U: Byte := 85
  const LOWER_C: Byte := 99

  predicate IsOctal(c: Byte) { 48 <= c <= 55 }
  predicate IsHex(c: Byte) { 48 <= c <= 57 || 97 <= c <= 102 || 65 <= c <= 70 }

  function HexVal(c: Byte): nat {
    if 48 <= c <= 57 then c - 48 else if 97 <= c <= 102 then c - 87 else if 65 <= c <= 70 then c - 55 else 0
  }

  /** The value of octal or hexadecimal digits. */
  function Octal(s: seq<Byte>): nat { if s == [] then 0 else 8 * Octal(s[..|s| - 1]) + HexVal(s[|s| - 1]) }
  function Hex(s: seq<Byte>): nat { if s == [] then 0 else 16 * Hex(s[..|s| - 1]) + HexVal(s[|s| - 1]) }

  lemma {:induction false} OctalLast(s: seq<Byte>, d: Byte)
    ensures Octal(s + [d]) == 8 * Octal(s) + HexVal(d)
  {
    assert (s + [d])[..|s|] == s;
  }

  lemma {:induction false} HexLast(s: seq<Byte>, d: Byte)
    ensures Hex(s + [d]) == 16 * Hex(s) + HexVal(d)
  {
    assert (s + [d])[..|s|] == s;
  }

  /** How many continuation bytes a code point takes in UTF-8; 4 for what is none. */
  function Continuations(v: nat): nat {
    if v < 0x80 then 0 else if v < 0x800 then 1 else if v < 0x10000 then 2 else if v < 0x110000 then 3 else 4
  }

  function Mark(n: nat): nat { if n == 0 then 0 else if n == 1 then 0xC0 else if n == 2 then 0xE0 else 0xF0 }

  /** What is left of `v` above `n` groups of six bits, and those groups. */
  function High(v: nat, n: nat): nat { if n == 0 then v else High(v / 64, n - 1) }
  function Low(v: nat, n: nat): seq<Byte> { if n == 0 then [] else Low(v / 64, n - 1) + [0x80 + v % 64] }

  /** UTF-8; nothing beyond the last code point. */
  function Utf8(v: nat): seq<Byte> {
    var n := Continuations(v);
    if n > 3 then [] else [(Mark(n) + High(v, n)) % 256] + Low(v, n)
  }

  // ----- one escape -----

  /** How many digits may follow the letter of an escape. */
  function Extra(c: Byte): nat {
    if IsOctal(c) || c == LOWER_X then 2 else if c == LOWER_U then 4 else if c == UPPER_U then 8 else 0
  }

  predicate DigitFor(c: Byte, d: Byte) { if IsOctal(c) then IsOctal(d) else IsHex(d) }

  /** The length of the digit run at the front of `s`, up to `max`. */
  function Run(s: seq<Byte>, max: nat, c: Byte): (n: nat)
    ensures n <= |s| && n <= max
  {
    if max == 0 || s == [] || !DigitFor(c, s[0]) then 0 else 1 + Run(s[1..], max - 1, c)
  }

  lemma {:induction false} RunDigits(s: seq<Byte>, max: nat, c: Byte, i: nat)
    requires i < Run(s, max, c)
    ensures DigitFor(c, s[i])
    decreases max
  {
    if i > 0 { RunDigits(s[1..], max - 1, c, i - 1); }
  }

  /** The escapes that are one letter. */
  function Letter(c: Byte): seq<Byte> {
    if c == 34 || c == BACKSLASH then [c]
    else if c == 97 then [7]
    else if c == 98 then [8]
    else if c == 101 then [27]
    else if c == 102 then [12]
    else if c == 110 then [10]
    else if c == 114 then [13]
    else if c == 116 then [9]
    else if c == 118 then [11]
    else [BACKSLASH, c]
  }

  /** What `\c` prints when `digits` follow it. */
  function Meaning(c: Byte, digits: seq<Byte>): seq<Byte> {
    if IsOctal(c) then [Octal([c] + digits) % 256]
    else if Extra(c) == 0 || digits == [] then Letter(c)
    else if c == LOWER_X then [Hex(digits) % 256]
    else Utf8(Hex(digits))
  }

  datatype Piece = Piece(bytes: seq<Byte>, used: nat, stop: bool)

  /** The first character or escape of a string. */
  function First(s: seq<Byte>): (p: Piece)
    requires s != []
    ensures 1 <= p.used <= |s|
  {
    if s[0] != BACKSLASH || |s| == 1 then Piece([s[0]], 1, false)
    else if s[1] == LOWER_C then Piece([], 2, true)
    else
      var k := Run(s[2..], Extra(s[1]), s[1]);
      Piece(Meaning(s[1], s[2..2 + k]), 2 + k, false)
  }

  datatype Out = Out(bytes: seq<Byte>, stop: bool)

  function Prepend(a: seq<Byte>, o: Out): Out { Out(a + o.bytes, o.stop) }

  /** What `print_escaped` prints, and whether it met a `\c`. */
  function Escaped(s: seq<Byte>): Out
    decreases |s|
  {
    if s == [] then Out([], false)
    else
      var p := First(s);
      if p.stop then Out([], true) else Prepend(p.bytes, Escaped(s[p.used..]))
  }

  // ----- the literal text of a format -----

  /** How much of a format is staged for one escape: one digit more than the escape can use. */
  function Stage(s: seq<Byte>): (n: nat)
    requires s != [] && s[0] == BACKSLASH
    ensures 1 <= n <= |s| && n <= 11
  {
    if |s| == 1 then 1 else if Extra(s[1]) == 0 then 2 else 2 + Run(s[2..], Extra(s[1]) + 1, s[1])
  }

  datatype Text = Text(bytes: seq<Byte>, stop: bool, conversion: bool)

  /** A format up to its end, its first `\c` or its first conversion. */
  function Literal(fmt: seq<Byte>): Text
    decreases |fmt|
  {
    if fmt == [] then Text([], false, false)
    else if fmt[0] == BACKSLASH then
      var n := Stage(fmt);
      var e := Escaped(fmt[..n]);
      if e.stop then Text(e.bytes, true, false)
      else
        var t := Literal(fmt[n..]);
        t.(bytes := e.bytes + t.bytes)
    else if fmt[0] == PERCENT then Text([], false, true)
    else
      var t := Literal(fmt[1..]);
      t.(bytes := [fmt[0]] + t.bytes)
  }

  // ----- staging changes nothing -----

  lemma {:induction false} RunCut(s: seq<Byte>, max: nat, c: Byte, n: nat)
    requires Run(s, max, c) <= n <= |s|
    ensures Run(s[..n], max, c) == Run(s, max, c)
    decreases max
  {
    if max > 0 && s != [] && DigitFor(c, s[0]) {
      assert s[..n][1..] == s[1..][..n - 1];
      RunCut(s[1..], max - 1, c, n - 1);
    }
  }

  lemma {:induction false} RunOneMore(s: seq<Byte>, max: nat, c: Byte)
    ensures Run(s, max, c) == Min(max, Run(s, max + 1, c))
    decreases max
  {
    if s != [] && DigitFor(c, s[0]) && max > 0 { RunOneMore(s[1..], max - 1, c); }
  }

  /** The staged piece starts with the same escape, and has at most one digit behind it. */
  lemma {:induction false} StageFirst(s: seq<Byte>)
    requires s != [] && s[0] == BACKSLASH
    ensures var n := Stage(s);
            && First(s[..n]) == First(s)
            && (First(s).used == n || (First(s).used == n - 1 && s[n - 1] != BACKSLASH))
  {
    if |s| > 1 && s[1] != LOWER_C { StageRun(s, Stage(s), Run(s[2..], Extra(s[1]), s[1])); }
  }

  lemma {:induction false} StageRun(s: seq<Byte>, n: nat, k: nat)
    requires |s| > 1 && s[0] == BACKSLASH && n == Stage(s) && k == Run(s[2..], Extra(s[1]), s[1])
    ensures 2 <= n && (2 + k == n || (2 + k == n - 1 && s[n - 1] != BACKSLASH))
    ensures Run(s[..n][2..], Extra(s[1]), s[1]) == k && s[..n][2..2 + k] == s[2..2 + k]
  {
    var c, m := s[1], Extra(s[1]);
    RunOneMore(s[2..], m, c);
    assert s[..n][2..] == s[2..][..n - 2];
    RunCut(s[2..], m, c, n - 2);
    assert s[..n][2..2 + k] == s[2..2 + k];
    if k < n - 2 { RunDigits(s[2..], m + 1, c, k); }
  }

  lemma {:induction false} EscapedPlain(c: Byte, rest: seq<Byte>)
    requires c != BACKSLASH
    ensures Escaped([c] + rest) == Prepend([c], Escaped(rest))
  {
    assert ([c] + rest)[1..] == rest;
  }

  lemma {:induction false} EscapedStep(s: seq<Byte>, p: Piece)
    requires s != [] && First(s) == p
    ensures Escaped(s) == if p.stop then Out([], true) else Prepend(p.bytes, Escaped(s[p.used..]))
  {}

  /** Behind the escape of a staged piece comes nothing, or one plain digit. */
  lemma {:induction false} StagedTail(s: seq<Byte>, used: nat, n: nat)
    requires used <= n <= |s| && (used == n || (used == n - 1 && s[used] != BACKSLASH))
    ensures Escaped(s[used..]) == Prepend(Escaped(s[..n][used..]).bytes, Escaped(s[n..]))
    ensures !Escaped(s[..n][used..]).stop
  {
    var tail := s[..n][used..];
    if used == n {
      assert tail == [];
      assert Escaped(s[n..]) == Prepend([], Escaped(s[n..]));
    } else {
      assert tail == [s[used]] + [];
      EscapedPlain(s[used], []);
      assert s[used..] == [s[used]] + s[n..];
      EscapedPlain(s[used], s[n..]);
    }
  }

  lemma {:induction false} PrependTwice(a: seq<Byte>, b: seq<Byte>, o: Out)
    ensures Prepend(a, Prepend(b, o)) == Prepend(a + b, o)
  {}

  /** Printing a staged escape and then the rest is printing the whole. */
  lemma {:induction false} StagedEscape(s: seq<Byte>, n: nat, e: Out)
    requires s != [] && s[0] == BACKSLASH && n == Stage(s) && e == Escaped(s[..n])
    ensures Escaped(s) == if e.stop then e else Prepend(e.bytes, Escaped(s[n..]))
  {
    var p := First(s);
    StageFirst(s);
    EscapedStep(s, p);
    EscapedStep(s[..n], p);
    if !p.stop {
      StagedTail(s, p.used, n);
      PrependTwice(p.bytes, Escaped(s[..n][p.used..]).bytes, Escaped(s[n..]));
    }
  }

  /** For every format without a conversion, piecewise printing is `print_escaped` of the whole. */
  lemma {:induction false} LiteralEscaped(fmt: seq<Byte>)
    requires !Literal(fmt).conversion
    ensures Out(Literal(fmt).bytes, Literal(fmt).stop) == Escaped(fmt)
    decreases |fmt|
  {
    if fmt != [] {
      if fmt[0] == BACKSLASH {
        var n := Stage(fmt);
        var e := Escaped(fmt[..n]);
        StagedEscape(fmt, n, e);
        if !e.stop { LiteralEscaped(fmt[n..]); }
      } else {
        LiteralEscaped(fmt[1..]);
        PlainEscaped(fmt);
      }
    }
  }

  lemma {:induction false} PlainEscaped(fmt: seq<Byte>)
    requires fmt != [] && fmt[0] != BACKSLASH
    ensures Escaped(fmt) == Prepend([fmt[0]], Escaped(fmt[1..]))
  {
    assert fmt == [fmt[0]] + fmt[1..];
    EscapedPlain(fmt[0], fmt[1..]);
  }

  lemma {:induction false} NoPercentNoConversion(fmt: seq<Byte>)
    requires PERCENT !in fmt
    ensures !Literal(fmt).conversion
    decreases |fmt|
  {
    if fmt != [] { NoPercentNoConversion(fmt[if fmt[0] == BACKSLASH then Stage(fmt) else 1..]); }
  }

  /** Every format without a percent sign. */
  lemma {:induction false} FormatEscaped(fmt: seq<Byte>)
    requires PERCENT !in fmt
    ensures Out(Literal(fmt).bytes, Literal(fmt).stop) == Escaped(fmt)
  {
    NoPercentNoConversion(fmt);
    LiteralEscaped(fmt);
  }

  // ----- quoting for the shell -----

  predicate Special(c: Byte) { c < 0x20 || c == 0x7f || c == QUOTE || c == BACKSLASH }

  function HexDigit(d: nat): Byte
    requires d < 16
  {
    if d < 10 then 48 + d else 87 + d
  }

  /** How one byte is written inside `$'...'`. */
  function Quoted(c: Byte): seq<Byte> {
    if c == BACKSLASH || c == QUOTE then [BACKSLASH, c]
    else if c == 7 then [BACKSLASH, 97]
    else if c == 8 then [BACKSLASH, 98]
    else if c == 27 then [BACKSLASH, 101]
    else if c == 12 then [BACKSLASH, 102]
    else if c == 10 then [BACKSLASH, 110]
    else if c == 13 then [BACKSLASH, 114]
    else if c == 9 then [BACKSLASH, 116]
    else if c == 11 then [BACKSLASH, 118]
    else if c < 0x20 || c == 0x7f then [BACKSLASH, LOWER_X, HexDigit(c / 16), HexDigit(c % 16)]
    else [c]
  }

  function Payload(s: seq<Byte>): seq<Byte> { if s == [] then [] else Quoted(s[0]) + Payload(s[1..]) }

  predicate NeedsQuote(s: seq<Byte>) { exists i :: 0 <= i < |s| && Special(s[i]) }

  /** What `%q` prints. */
  function ShellWord(s: seq<Byte>): seq<Byte> {
    if s == [] then [QUOTE, QUOTE]
    else if !NeedsQuote(s) then s
    else [36, QUOTE] + Payload(s) + [QUOTE]
  }

  /** What the decoder makes of a quoted byte: itself, but for the quote, whose backslash stays. */
  function ReadsAs(c: Byte): seq<Byte> { if c == QUOTE then [BACKSLASH, QUOTE] else [c] }

  function Reread(s: seq<Byte>): seq<Byte> { if s == [] then [] else ReadsAs(s[0]) + Reread(s[1..]) }

  lemma {:induction false} HexRead(c: Byte)
    ensures Hex([HexDigit(c / 16), HexDigit(c % 16)]) == c
  {
    var x, y := HexDigit(c / 16), HexDigit(c % 16);
    HexLast([], x);
    HexLast([x], y);
    assert [] + [x] == [x] && [x] + [y] == [x, y];
  }

  lemma {:induction false} QuotedFirst(c: Byte, rest: seq<Byte>)
    requires c != 0
    ensures First(Quoted(c) + rest) == Piece(ReadsAs(c), |Quoted(c)|, false)
  {
    var s := Quoted(c) + rest;
    if |Quoted(c)| == 4 {
      var d := s[2..];
      assert d[0] == HexDigit(c / 16) && d[1..][0] == HexDigit(c % 16);
      assert Run(d, 2, LOWER_X) == 1 + Run(d[1..], 1, LOWER_X) == 2;
      assert s[2..4] == [HexDigit(c / 16), HexDigit(c % 16)];
      HexRead(c);
    } else if |Quoted(c)| == 2 {
      assert s[2..2] == [];
    }
  }

  lemma {:induction false} PayloadReads(s: seq<Byte>)
    requires CString(s)
    ensures Escaped(Payload(s)) == Out(Reread(s), false)
  {
    if s != [] {
      var rest := Payload(s[1..]);
      PayloadReads(s[1..]);
      QuotedFirst(s[0], rest);
      assert Payload(s)[|Quoted(s[0])|..] == rest;
    }
  }

  lemma {:induction false} RereadExact(s: seq<Byte>)
    ensures |Reread(s)| >= |s|
    ensures QUOTE in s ==> |Reread(s)| > |s|
    ensures QUOTE !in s ==> Reread(s) == s
  {
    if s != [] { RereadExact(s[1..]); }
  }

  /** Decoding what `%q` writes between its quotes gives the argument back exactly when it has no single quote. */
  lemma {:induction false} PayloadExact(s: seq<Byte>)
    requires CString(s)
    ensures Escaped(Payload(s)) == Out(s, false) <==> QUOTE !in s
  {
    PayloadReads(s);
    RereadExact(s);
  }

  /** An argument printed bare is its own payload. */
  lemma {:induction false} BarePayload(s: seq<Byte>)
    requires !NeedsQuote(s)
    ensures Payload(s) == s
  {
    if s != [] {
      assert !Special(s[0]);
      assert forall i :: 0 <= i < |s[1..]| ==> s[1..][i] == s[i + 1];
      BarePayload(s[1..]);
    }
  }

  // ----- UTF-8 -----

  function Pow16(n: nat): nat { if n == 0 then 1 else 16 * Pow16(n - 1) }

  lemma {:induction false} HexBelow(s: seq<Byte>)
    ensures Hex(s) < Pow16(|s|)
  {
    if s != [] { HexBelow(s[..|s| - 1]); }
  }

  /** The four digits of `\u` never reach the longest form, so it needs no case of its own. */
  lemma {:induction false} FourDigits(s: seq<Byte>)
    requires |s| <= 4
    ensures Hex(s) < 0x10000 && Continuations(Hex(s)) <= 2
  {
    HexBelow(s);
    assert Pow16(4) == 65536;
    assert Pow16(|s|) <= Pow16(4);
  }

  /** Six more bits from each continuation byte. */
  function Shifted(high: int, tail: seq<Byte>): int {
    if tail == [] then high else 64 * Shifted(high, tail[..|tail| - 1]) + (tail[|tail| - 1] as int - 0x80)
  }

  /** The code point a UTF-8 sequence stands for. */
  function CodePoint(s: seq<Byte>): int
    requires s != []
  {
    Shifted(s[0] as int - Mark(|s| - 1), s[1..])
  }

  lemma {:induction false} ShiftedBack(v: nat, n: nat)
    ensures Shifted(High(v, n), Low(v, n)) == v && |Low(v, n)| == n
  {
    if n > 0 {
      ShiftedBack(v / 64, n - 1);
      assert Low(v, n)[..n - 1] == Low(v / 64, n - 1);
    }
  }

  /** The high bits leave room for the mark of the first byte. */
  lemma {:induction false} HighFits(v: nat)
    requires v < 0x110000
    ensures Mark(Continuations(v)) + High(v, Continuations(v)) < 256
  {
    var a, b, c := v / 64, v / 64 / 64, v / 64 / 64 / 64;
    assert High(v, 1) == High(a, 0) == a;
    assert High(v, 2) == High(a, 1) == High(b, 0) == b;
    assert High(v, 3) == High(a, 2) == High(b, 1) == High(c, 0) == c;
  }

  lemma {:induction false} Utf8Reads(v: nat)
    requires v < 0x110000
    ensures Utf8(v) != [] && CodePoint(Utf8(v)) == v
  {
    var n := Continuations(v);
    HighFits(v);
    ShiftedBack(v, n);
    assert Utf8(v)[1..] == Low(v, n);
  }

  // ----- numeric escapes -----

  lemma {:induction false} RunAll(s: seq<Byte>, n: nat, c: Byte)
    requires n <= |s| && forall i :: 0 <= i < n ==> DigitFor(c, s[i])
    ensures Run(s, n, c) == n
  {
    if n > 0 {
      assert forall i :: 1 <= i < |s| ==> s[i] == s[1..][i - 1];
      RunAll(s[1..], n - 1, c);
    }
  }

  /** The first escape of a string that starts with a letter and all the digits it may have. */
  lemma {:induction false} FullEscape(c: Byte, digits: seq<Byte>, rest: seq<Byte>)
    requires c != LOWER_C && |digits| == Extra(c) && forall i :: 0 <= i < |digits| ==> DigitFor(c, digits[i])
    ensures First([BACKSLASH, c] + digits + rest) == Piece(Meaning(c, digits), 2 + |digits|, false)
  {
    var s := [BACKSLASH, c] + digits + rest;
    assert s[2..] == digits + rest;
    RunAll(s[2..], |digits|, c);
    assert s[2..2 + |digits|] == digits;
  }

  /** A byte as three octal digits. */
  function OctalText(v: Byte): seq<Byte> { [48 + v / 64, 48 + v / 8 % 8, 48 + v % 8] }

  lemma {:induction false} OctalThree(a: Byte, b: Byte, c: Byte)
    ensures Octal([a, b, c]) == 64 * HexVal(a) + 8 * HexVal(b) + HexVal(c)
  {
    OctalLast([], a);
    OctalLast([a], b);
    OctalLast([a, b], c);
    assert [] + [a] == [a] && [a] + [b] == [a, b] && [a, b] + [c] == [a, b, c];
  }

  lemma {:induction false} OctalDigits(v: Byte, a: nat, b: nat, c: nat)
    requires a == v / 64 && b == v / 8 % 8 && c == v % 8
    ensures v == 64 * a + 8 * b + c && a < 8 && b < 8 && c < 8
  {
    assert v / 8 / 8 == a;
  }

  lemma {:induction false} DigitValue(d: nat)
    requires d < 8
    ensures HexVal(48 + d) == d
  {}

  lemma {:induction false} OctalTextReads(v: Byte)
    ensures Octal(OctalText(v)) == v
  {
    var a, b, c := v / 64, v / 8 % 8, v % 8;
    OctalDigits(v, a, b, c);
    OctalThree(48 + a, 48 + b, 48 + c);
    DigitValue(a);
    DigitValue(b);
    DigitValue(c);
  }

  /** Every byte can be written as an octal escape, whatever follows. */
  lemma {:induction false} OctalEscape(v: Byte, rest: seq<Byte>)
    ensures First([BACKSLASH] + OctalText(v) + rest) == Piece([v], 4, false)
  {
    var c, d := OctalText(v)[0], OctalText(v)[1..];
    OctalTextReads(v);
    assert [c] + d == OctalText(v);
    assert [BACKSLASH] + OctalText(v) + rest == [BACKSLASH, c] + d + rest;
    FullEscape(c, d, rest);
  }

  /** The lowest `n` hexadecimal digits of a number. */
  function HexText(v: nat, n: nat): (r: seq<Byte>)
    ensures |r| == n && forall i :: 0 <= i < n ==> IsHex(r[i])
  {
    if n == 0 then [] else HexText(v / 16, n - 1) + [HexDigit(v % 16)]
  }

  lemma {:induction false} HexTextReads(v: nat, n: nat)
    requires v < Pow16(n)
    ensures Hex(HexText(v, n)) == v
  {
    if n > 0 {
      HexTextReads(v / 16, n - 1);
      HexLast(HexText(v / 16, n - 1), HexDigit(v % 16));
    }
  }

  /** Every code point can be written with four or eight hexadecimal digits, whatever follows. */
  lemma {:induction false} UnicodeEscape(c: Byte, v: nat, rest: seq<Byte>)
    requires c in {LOWER_U, UPPER_U} && v < Pow16(Extra(c))
    ensures First([BACKSLASH, c] + HexText(v, Extra(c)) + rest) == Piece(Utf8(v), 2 + Extra(c), false)
  {
    HexTextReads(v, Extra(c));
    FullEscape(c, HexText(v, Extra(c)), rest);
  }

  // ----- the loops of the program -----

  lemma {:induction false} RunStep(s: seq<Byte>, i: nat, max: nat, c: Byte)
    requires i < |s| && max > 0 && DigitFor(c, s[i])
    ensures Run(s[i..], max, c) == 1 + Run(s[i + 1..], max - 1, c)
  {
    assert s[i..][1..] == s[i + 1..];
  }

  lemma {:induction false} RunStop(s: seq<Byte>, i: nat, max: nat, c: Byte)
    requires i <= |s| && (max == 0 || i == |s| || !DigitFor(c, s[i]))
    ensures Run(s[i..], max, c) == 0
  {}

  lemma {:induction false} HexStep(s: seq<Byte>, a: nat, b: nat)
    requires a <= b < |s|
    ensures Hex(s[a..b + 1]) == 16 * Hex(s[a..b]) + HexVal(s[b])
  {
    HexLast(s[a..b], s[b]);
    assert s[a..b + 1] == s[a..b] + [s[b]];
  }

  /** At most `max` hexadecimal digits from `start` on. */
  method ReadHex(s: seq<Byte>, start: nat, max: nat, c: Byte) returns (val: nat, digits: nat)
    requires start <= |s| && !IsOctal(c)
    ensures digits == Run(s[start..], max, c) && val == Hex(s[start..start + digits])
  {
    var p := start;
    val, digits := 0, 0;
    while digits < max && p < |s| && IsHex(s[p])
      invariant digits <= max && start + digits == p <= |s| && val == Hex(s[start..p])
      invariant digits + Run(s[p..], max - digits, c) == Run(s[start..], max, c)
    {
      RunStep(s, p, max - digits, c);
      HexStep(s, start, p);
      val := val * 16 + HexVal(s[p]);
      p, digits := p + 1, digits + 1;
    }
    RunStop(s, p, max - digits, c);
  }

  lemma {:induction false} OctalStep(c: Byte, s: seq<Byte>, a: nat, b: nat)
    requires a <= b < |s|
    ensures Octal([c] + s[a..b + 1]) == 8 * Octal([c] + s[a..b]) + HexVal(s[b])
  {
    OctalLast([c] + s[a..b], s[b]);
    assert [c] + s[a..b + 1] == [c] + s[a..b] + [s[b]];
  }

  lemma {:induction false} OctalOne(c: Byte, s: seq<Byte>, a: nat)
    requires a <= |s|
    ensures Octal([c] + s[a..a]) == HexVal(c)
  {
    OctalLast([], c);
    assert [c] + s[a..a] == [] + [c];
  }

  /** Up to two more octal digits behind the one at `start - 1`. */
  method ReadOctal(s: seq<Byte>, start: nat, c: Byte) returns (val: nat, digits: nat)
    requires 0 < start <= |s| && s[start - 1] == c && IsOctal(c)
    ensures digits == Run(s[start..], 2, c) && val == Octal([c] + s[start..start + digits])
  {
    OctalOne(c, s, start);
    val, digits := c - 48, 0;
    if start < |s| && IsOctal(s[start]) {
      OctalStep(c, s, start, start);
      RunStep(s, start, 2, c);
      val, digits := val * 8 + (s[start] - 48), 1;
      if start + 1 < |s| && IsOctal(s[start + 1]) {
        OctalStep(c, s, start, start + 1);
        RunStep(s, start + 1, 1, c);
        val, digits := val * 8 + (s[start + 1] - 48), 2;
      }
    }
  }

  /** `\x`, `\u` and `\U`: without a digit they print themselves. */
  method PrintHexEscape(s: seq<Byte>, i: nat) returns (bytes: seq<Byte>, digits: nat)
    requires i < |s| && s[i] in {LOWER_X, LOWER_U, UPPER_U}
    ensures digits == Run(s[i + 1..], Extra(s[i]), s[i]) && bytes == Meaning(s[i], s[i + 1..i + 1 + digits])
  {
    var val;
    val, digits := ReadHex(s, i + 1, Extra(s[i]), s[i]);
    MeaningHex(s[i], s[i + 1..i + 1 + digits], val);
    if digits == 0 {
      bytes := [BACKSLASH, s[i]];
    } else if s[i] == LOWER_X {
      bytes := [val % 256];
    } else {
      bytes := Utf8(val);
    }
  }

  lemma {:induction false} MeaningHex(c: Byte, digits: seq<Byte>, val: nat)
    requires c in {LOWER_X, LOWER_U, UPPER_U} && val == Hex(digits)
    ensures Meaning(c, digits)
         == if digits == [] then [BACKSLASH, c] else if c == LOWER_X then [val % 256] else Utf8(val)
  {}

  /** The escape whose letter stands at `i`. */
  method PrintEscape(s: seq<Byte>, i: nat) returns (bytes: seq<Byte>, digits: nat)
    requires i < |s|
    ensures digits == Run(s[i + 1..], Extra(s[i]), s[i]) && bytes == Meaning(s[i], s[i + 1..i + 1 + digits])
  {
    if IsOctal(s[i]) {
      var val;
      val, digits := ReadOctal(s, i + 1, s[i]);
      bytes := [val % 256];
    } else if s[i] in {LOWER_X, LOWER_U, UPPER_U} {
      bytes, digits := PrintHexEscape(s, i);
    } else {
      bytes, digits := Letter(s[i]), 0;
    }
  }

  /** The character or escape at `i`. */
  method PrintFirst(s: seq<Byte>, i: nat) returns (p: Piece)
    requires i < |s|
    ensures p == First(s[i..])
  {
    if s[i] == BACKSLASH && i + 1 < |s| {
      if s[i + 1] == LOWER_C { return Piece([], 2, true); }
      var bytes, digits := PrintEscape(s, i + 1);
      assert s[i..][2..] == s[i + 2..] && s[i..][2..2 + digits] == s[i + 2..i + 2 + digits];
      p := Piece(bytes, 2 + digits, false);
    } else {
      p := Piece([s[i]], 1, false);
    }
  }

  /** `out` and what `print_escaped` prints from `i` on make up `whole`. */
  ghost predicate Printed(s: seq<Byte>, i: nat, out: seq<Byte>, whole: Out) {
    i <= |s| && Prepend(out, Escaped(s[i..])) == whole
  }

  lemma {:induction false} PrintedStart(s: seq<Byte>)
    ensures Printed(s, 0, [], Escaped(s))
  {
    assert s[0..] == s && [] + Escaped(s).bytes == Escaped(s).bytes;
  }

  /** The same behind piece `p`, or the whole at a `\c`. */
  ghost predicate PrintedNext(s: seq<Byte>, i: nat, out: seq<Byte>, p: Piece, whole: Out) {
    if p.stop then whole == Out(out, true) else p.used > 0 && Printed(s, i + p.used, out + p.bytes, whole)
  }

  lemma {:induction false} PrintedStep(s: seq<Byte>, i: nat, out: seq<Byte>, p: Piece, whole: Out)
    requires i < |s| && p == First(s[i..]) && Printed(s, i, out, whole)
    ensures PrintedNext(s, i, out, p, whole)
  {
    EscapedStep(s[i..], p);
    if !p.stop {
      assert s[i..][p.used..] == s[i + p.used..];
      PrependTwice(out, p.bytes, Escaped(s[i + p.used..]));
    }
  }

  lemma {:induction false} PrintedEnd(s: seq<Byte>, i: nat, out: seq<Byte>, whole: Out)
    requires Printed(s, i, out, whole) && i == |s|
    ensures whole == Out(out, false)
  {}

  /** One round of the loop. */
  method PrintOne(s: seq<Byte>, i: nat, ghost out: seq<Byte>, ghost whole: Out) returns (p: Piece)
    requires i < |s| && Printed(s, i, out, whole)
    ensures PrintedNext(s, i, out, p, whole)
  {
    p := PrintFirst(s, i);
    PrintedStep(s, i, out, p, whole);
  }

  method PrintEscaped(s: seq<Byte>) returns (out: seq<Byte>, stop: bool)
    ensures Out(out, stop) == Escaped(s)
  {
    ghost var whole := Escaped(s);
    out, stop := [], false;
    var i: nat := 0;
    PrintedStart(s);
    while i < |s|
      invariant Printed(s, i, out, whole)
      decreases |s| - i
    {
      var p := PrintOne(s, i, out, whole);
      if p.stop { return out, true; }
      out, i := out + p.bytes, i + p.used;
    }
    PrintedEnd(s, i, out, whole);
    stop := false;
  }

  /** Copying an escape of the format into the staging buffer; it always fits. */
  method StageEscape(fmt: seq<Byte>, start: nat, tmp: array<Byte>) returns (tlen: nat)
    requires start < |fmt| && fmt[start] == BACKSLASH && tmp.Length == 16
    modifies tmp
    ensures tlen == Stage(fmt[start..]) && tmp[..tlen] == fmt[start..start + tlen] && tlen < 16
  {
    tmp[0] := fmt[start];
    tlen := 1;
    if start + 1 < |fmt| {
      tmp[1] := fmt[start + 1];
      assert fmt[start..][2..] == fmt[start + 2..];
      tlen := 2;
      var c := fmt[start + 1];
      if Extra(c) > 0 { tlen := StageDigits(fmt, start, tmp, c, Extra(c) + 1); }
    }
  }

  method StageOne(fmt: seq<Byte>, start: nat, tmp: array<Byte>, tlen: nat)
    requires start + tlen < |fmt| && tlen < tmp.Length && tmp[..tlen] == fmt[start..start + tlen]
    modifies tmp
    ensures tmp[..tlen + 1] == fmt[start..start + tlen + 1]
  {
    tmp[tlen] := fmt[start + tlen];
    assert tmp[..tlen + 1] == tmp[..tlen] + [fmt[start + tlen]];
  }

  method StageDigits(fmt: seq<Byte>, start: nat, tmp: array<Byte>, c: Byte, most: nat) returns (tlen: nat)
    requires start + 1 < |fmt| && tmp.Length == 16 && tmp[..2] == fmt[start..start + 2] && most <= 9
    modifies tmp
    ensures tlen == 2 + Run(fmt[start + 2..], most, c)
    ensures start + tlen <= |fmt| && tmp[..tlen] == fmt[start..start + tlen]
  {
    tlen := 2;
    while tlen < 2 + most && start + tlen < |fmt| && DigitFor(c, fmt[start + tlen])
      invariant 2 <= tlen && Counts(fmt, start, tlen, most, c) && tmp[..tlen] == fmt[start..start + tlen]
      decreases 2 + most - tlen
    {
      CountsStep(fmt, start, tlen, most, c);
      StageOne(fmt, start, tmp, tlen);
      tlen := tlen + 1;
    }
    RunStop(fmt, start + tlen, 2 + most - tlen, c);
  }

  /** The digits staged and those still to come are the digits of the run. */
  ghost predicate Counts(fmt: seq<Byte>, start: nat, tlen: nat, most: nat, c: Byte) {
    && start + 2 <= start + tlen <= |fmt| && tlen <= 2 + most
    && tlen + Run(fmt[start + tlen..], 2 + most - tlen, c) == 2 + Run(fmt[start + 2..], most, c)
  }

  lemma {:induction false} CountsStep(fmt: seq<Byte>, start: nat, tlen: nat, most: nat, c: Byte)
    requires Counts(fmt, start, tlen, most, c) && tlen < 2 + most
    requires start + tlen < |fmt| && DigitFor(c, fmt[start + tlen])
    ensures Counts(fmt, start, tlen + 1, most, c)
  {
    RunStep(fmt, start + tlen, 2 + most - tlen, c);
  }

  function Behind(out: seq<Byte>, t: Text): Text { t.(bytes := out + t.bytes) }

  lemma {:induction false} LiteralPlain(out: seq<Byte>, fmt: seq<Byte>, p: nat)
    requires p < |fmt| && fmt[p] != BACKSLASH && fmt[p] != PERCENT
    ensures Behind(out, Literal(fmt[p..])) == Behind(out + [fmt[p]], Literal(fmt[p + 1..]))
  {
    assert fmt[p..][1..] == fmt[p + 1..];
    assert out + ([fmt[p]] + Literal(fmt[p + 1..]).bytes) == out + [fmt[p]] + Literal(fmt[p + 1..]).bytes;
  }

  lemma {:induction false} LiteralStaged(out: seq<Byte>, fmt: seq<Byte>, p: nat, n: nat, e: Out)
    requires p < |fmt| && fmt[p] == BACKSLASH && n == Stage(fmt[p..]) && e == Escaped(fmt[p..p + n])
    ensures Behind(out, Literal(fmt[p..]))
         == if e.stop then Text(out + e.bytes, true, false) else Behind(out + e.bytes, Literal(fmt[p + n..]))
  {
    var s := fmt[p..];
    assert s[..n] == fmt[p..p + n] && s[n..] == fmt[p + n..];
    assert out + (e.bytes + Literal(s[n..]).bytes) == out + e.bytes + Literal(s[n..]).bytes;
  }

  lemma {:induction false} LiteralEnds(out: seq<Byte>, fmt: seq<Byte>, p: nat)
    requires p <= |fmt|
    ensures Behind([], Literal(fmt[0..])) == Literal(fmt)
    ensures p == |fmt| ==> Behind(out, Literal(fmt[p..])) == Text(out, false, false)
    ensures p < |fmt| && fmt[p] == PERCENT ==> Behind(out, Literal(fmt[p..])) == Text(out, false, true)
  {
    assert fmt[0..] == fmt && [] + Literal(fmt).bytes == Literal(fmt).bytes;
  }

  /** One escape of the format, staged and printed. */
  method PrintStaged(fmt: seq<Byte>, p: nat) returns (bytes: seq<Byte>, stop: bool, tlen: nat)
    requires p < |fmt| && fmt[p] == BACKSLASH
    ensures tlen == Stage(fmt[p..]) && p + tlen <= |fmt| && Out(bytes, stop) == Escaped(fmt[p..p + tlen])
  {
    var tmp := new Byte[16](_ => 0);
    tlen := StageEscape(fmt, p, tmp);
    var staged := tmp[..tlen];
    assert staged == fmt[p..p + tlen];
    bytes, stop := PrintEscaped(staged);
  }

  method PrintNextEscape(fmt: seq<Byte>, p: nat, out: seq<Byte>) returns (now: seq<Byte>, q: nat, stop: bool)
    requires p < |fmt| && fmt[p] == BACKSLASH
    ensures p <= q <= |fmt| && (q == p ==> stop)
    ensures Behind(out, Literal(fmt[p..])) == if q == p then Text(now, true, false) else Behind(now, Literal(fmt[q..]))
  {
    var bytes, tlen;
    bytes, stop, tlen := PrintStaged(fmt, p);
    LiteralStaged(out, fmt, p, tlen, Out(bytes, stop));
    now, q := out + bytes, if stop then p else p + tlen;
  }

  /** One character or escape of the format; at a `\c` or a conversion `q` stays at `p`. */
  method PrintNext(fmt: seq<Byte>, p: nat, out: seq<Byte>) returns (now: seq<Byte>, q: nat, stop: bool)
    requires p < |fmt|
    ensures p <= q <= |fmt|
    ensures Behind(out, Literal(fmt[p..])) == if q == p then Text(now, stop, !stop) else Behind(now, Literal(fmt[q..]))
  {
    now, q, stop := out, p, false;
    if fmt[p] == BACKSLASH {
      now, q, stop := PrintNextEscape(fmt, p, out);
    } else if fmt[p] == PERCENT {
      LiteralEnds(out, fmt, p);
    } else {
      LiteralPlain(out, fmt, p);
      now, q := out + [fmt[p]], p + 1;
    }
  }

  /** The literal text of a format, up to its end, a `\c` or a conversion. */
  method PrintLiteral(fmt: seq<Byte>) returns (out: seq<Byte>, stop: bool, conversion: bool)
    ensures Text(out, stop, conversion) == Literal(fmt)
  {
    ghost var whole := Literal(fmt);
    out, stop, conversion := [], false, false;
    var p := 0;
    LiteralEnds([], fmt, 0);
    while p < |fmt|
      invariant 0 <= p <= |fmt| && Behind(out, Literal(fmt[p..])) == whole
    {
      var q;
      out, q, stop := PrintNext(fmt, p, out);
      if q == p { return out, stop, !stop; }
      p := q;
    }
    LiteralEnds(out, fmt, p);
    return out, false, false;
  }

  lemma {:induction false} PayloadStep(out: seq<Byte>, s: seq<Byte>, i: nat)
    requires i < |s|
    ensures out + Payload(s[i..]) == out + Quoted(s[i]) + Payload(s[i + 1..])
  {
    assert s[i..][1..] == s[i + 1..];
  }

  method PrintQuoted(s: seq<Byte>) returns (out: seq<Byte>)
    ensures out == ShellWord(s)
  {
    if s == [] { return [QUOTE, QUOTE]; }
    var needsQuote, i := false, 0;
    while i < |s|
      invariant 0 <= i <= |s| && !needsQuote && forall j :: 0 <= j < i ==> !Special(s[j])
    {
      if Special(s[i]) {
        needsQuote := true;
        break;
      }
      i := i + 1;
    }
    if !needsQuote { return s; }
    out := [36, QUOTE];
    i := 0;
    while i < |s|
      invariant 0 <= i <= |s| && out + Payload(s[i..]) == [36, QUOTE] + Payload(s)
    {
      PayloadStep(out, s, i);
      out := out + Quoted(s[i]);
      i := i + 1;
    }
    out := out + [QUOTE];
  }
}
