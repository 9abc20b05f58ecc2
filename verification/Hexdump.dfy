/**
 The dump loop of user/hexdump.c: input is cut into lines, and a run of lines
 equal to the line before it is printed as one star.
 */
module Hexdump {
  import opened Bytes

  const LINE_SPACE := 256

  /** One line of output: an address with the bytes shown, a star, or the closing address. */
  datatype Record = Line(addr: nat, bytes: seq<Byte>) | Star | End(addr: nat)

  /** How many bytes the next line takes; a negative limit is no limit. */
  function Got(input: seq<Byte>, width: nat, limit: int): (n: nat)
    ensures n <= |input| && n <= width && (limit >= 0 ==> n <= limit)
  {
    if limit < 0 then Min(width, |input|) else Min(limit, Min(width, |input|))
  }

  function LessLimit(limit: int, got: nat): int { if limit > 0 then limit - got else limit }

  predicate Repeats(line: seq<Byte>, width: nat, prev: Option<seq<Byte>>, verbose: bool) {
    !verbose && prev.Some? && |line| == width && line == prev.value
  }

  function Dump(
    input: seq<Byte>, width: nat, limit: int, addr: nat, prev: Option<seq<Byte>>, star: bool, verbose: bool
  ): seq<Record>
    decreases |input|
  {
    var got := Got(input, width, limit);
    if got == 0 then [End(addr)]
    else
      var line, rest, limit', addr' := input[..got], input[got..], LessLimit(limit, got), addr + got;
      if Repeats(line, width, prev, verbose) then
        (if star then [] else [Star]) + Dump(rest, width, limit', addr', prev, true, verbose)
      else
        [Line(addr, line)]
        + Dump(rest, width, limit', addr', if got == width then Some(line) else None, false, verbose)
  }

  /** The dump with every line printed. */
  function Verbose(input: seq<Byte>, width: nat, limit: int, addr: nat): seq<Record>
    decreases |input|
  {
    var got := Got(input, width, limit);
    if got == 0 then [End(addr)]
    else [Line(addr, input[..got])] + Verbose(input[got..], width, LessLimit(limit, got), addr + got)
  }

  // ----- reading a dump back -----

  /** Copies of a line from address `a` up to address `stop`. */
  function Copies(a: nat, stop: nat, bytes: seq<Byte>): seq<Record>
    decreases stop - a
  {
    if a >= stop || bytes == [] then [] else [Line(a, bytes)] + Copies(a + |bytes|, stop, bytes)
  }

  function NextAddr(rs: seq<Record>): nat { if rs == [] || rs[0].Star? then 0 else rs[0].addr }

  /** Each star becomes copies of the line before it, up to the next printed address. */
  function Expand(rs: seq<Record>, last: Record): seq<Record> {
    if rs == [] then []
    else
      match rs[0]
      case Line(a, b) => [rs[0]] + Expand(rs[1..], rs[0])
      case End(a) => [rs[0]] + Expand(rs[1..], last)
      case Star =>
        if last.Line? then Copies(last.addr + |last.bytes|, NextAddr(rs[1..]), last.bytes) + Expand(rs[1..], last)
        else Expand(rs[1..], last)
  }

  /** The bytes a dump shows. */
  function Shown(rs: seq<Record>): seq<Byte> {
    if rs == [] then [] else (if rs[0].Line? then rs[0].bytes else []) + Shown(rs[1..])
  }

  // ----- losslessness -----

  /** `last` is the line printed before a run of repeats, and nothing lies between them. */
  predicate Follows(width: nat, addr: nat, prev: Option<seq<Byte>>, star: bool, last: Record) {
    && (star ==> prev.Some?)
    && (prev.Some? ==> last.Line? && last.bytes == prev.value && |prev.value| == width)
    && (prev.Some? && !star ==> last.addr + width == addr)
  }

  /** What the dump of the rest gives, when a star is or is not waiting for its end. */
  function Resolved(rs: seq<Record>, addr: nat, star: bool, last: Record): seq<Record> {
    (if star && last.Line? then Copies(addr, NextAddr(rs), last.bytes) else []) + Expand(rs, last)
  }

  lemma {:induction false} ExpandCons(r: Record, rs: seq<Record>, last: Record)
    requires !r.Star?
    ensures Expand([r] + rs, last) == [r] + Expand(rs, if r.Line? then r else last)
  {
    assert ([r] + rs)[1..] == rs;
  }

  lemma {:induction false} ExpandStar(rs: seq<Record>, last: Record)
    requires last.Line?
    ensures Expand([Star] + rs, last)
         == Copies(last.addr + |last.bytes|, NextAddr(rs), last.bytes) + Expand(rs, last)
  {
    assert ([Star] + rs)[1..] == rs;
  }

  /** Behind a star comes an address no smaller than the one reached. */
  lemma {:induction false} NextIsAhead(
    input: seq<Byte>, width: nat, limit: int, addr: nat, prev: Option<seq<Byte>>, verbose: bool)
    ensures var rs := Dump(input, width, limit, addr, prev, true, verbose);
            rs != [] && !rs[0].Star? && NextAddr(rs) >= addr
    decreases |input|
  {
    var got := Got(input, width, limit);
    if got != 0 && Repeats(input[..got], width, prev, verbose) {
      NextIsAhead(input[got..], width, LessLimit(limit, got), addr + got, prev, verbose);
    }
  }

  lemma {:induction false} CopiesStep(a: nat, stop: nat, p: seq<Byte>, rest: seq<Record>)
    requires a < stop && p != []
    ensures Copies(a, stop, p) + rest == [Line(a, p)] + (Copies(a + |p|, stop, p) + rest)
  {}

  lemma {:induction false} RepeatResolved(rs: seq<Record>, addr: nat, star: bool, last: Record, p: seq<Byte>)
    requires last.Line? && last.bytes == p != [] && NextAddr(rs) > addr
    requires !star ==> last.addr + |p| == addr
    ensures Resolved((if star then [] else [Star]) + rs, addr, star, last)
         == [Line(addr, p)] + Resolved(rs, addr + |p|, true, last)
  {
    CopiesStep(addr, NextAddr(rs), p, Expand(rs, last));
    if star { assert [] + rs == rs; } else { ExpandStar(rs, last); }
  }

  lemma {:induction false} LineResolved(line: Record, rs: seq<Record>, star: bool, last: Record)
    requires line.Line?
    ensures Resolved([line] + rs, line.addr, star, last) == [line] + Resolved(rs, line.addr + |line.bytes|, false, line)
  {
    ExpandCons(line, rs, last);
  }

  lemma {:induction false} EndResolved(addr: nat, star: bool, last: Record)
    ensures Resolved([End(addr)], addr, star, last) == [End(addr)]
  {
    ExpandCons(End(addr), [], last);
    assert [End(addr)] + [] == [End(addr)];
  }

  /** With the stars written out, what is still to be dumped is what the verbose dump shows. */
  lemma {:induction false} SqueezeResolved(
    input: seq<Byte>, width: nat, limit: int, addr: nat, prev: Option<seq<Byte>>, star: bool, last: Record)
    requires Follows(width, addr, prev, star, last)
    ensures Resolved(Dump(input, width, limit, addr, prev, star, false), addr, star, last)
         == Verbose(input, width, limit, addr)
    decreases |input|
  {
    var got := Got(input, width, limit);
    if got == 0 {
      EndResolved(addr, star, last);
    } else {
      var line, rest, limit' := input[..got], input[got..], LessLimit(limit, got);
      if Repeats(line, width, prev, false) {
        NextIsAhead(rest, width, limit', addr + got, prev, false);
        RepeatResolved(Dump(rest, width, limit', addr + got, prev, true, false), addr, star, last, line);
        SqueezeResolved(rest, width, limit', addr + got, prev, true, last);
      } else {
        var next := if got == width then Some(line) else None;
        LineResolved(Line(addr, line), Dump(rest, width, limit', addr + got, next, false, false), star, last);
        SqueezeResolved(rest, width, limit', addr + got, next, false, Line(addr, line));
      }
    }
  }

  /** Squeezing loses nothing. */
  lemma {:induction false} SqueezeLossless(input: seq<Byte>, width: nat, limit: int, addr: nat)
    ensures Expand(Dump(input, width, limit, addr, None, false, false), End(0)) == Verbose(input, width, limit, addr)
  {
    var rs := Dump(input, width, limit, addr, None, false, false);
    SqueezeResolved(input, width, limit, addr, None, false, End(0));
    assert [] + Expand(rs, End(0)) == Expand(rs, End(0));
  }

  /** With -v no line is ever squeezed. */
  lemma {:induction false} VerboseDump(
    input: seq<Byte>, width: nat, limit: int, addr: nat, prev: Option<seq<Byte>>, star: bool)
    ensures Dump(input, width, limit, addr, prev, star, true) == Verbose(input, width, limit, addr)
    decreases |input|
  {
    var got := Got(input, width, limit);
    if got != 0 {
      var line := input[..got];
      VerboseDump(input[got..], width, LessLimit(limit, got), addr + got, if got == width then Some(line) else None,
                  false);
    }
  }

  // ----- what the verbose dump shows -----

  /** How many bytes are dumped in all. */
  function Dumped(input: seq<Byte>, limit: int): (n: nat)
    ensures n <= |input|
  {
    if limit < 0 then |input| else Min(limit, |input|)
  }

  lemma {:induction false} ShownCons(r: Record, rs: seq<Record>)
    ensures Shown([r] + rs) == (if r.Line? then r.bytes else []) + Shown(rs)
  {
    assert ([r] + rs)[1..] == rs;
  }

  /** A line takes its bytes off what is to be dumped. */
  lemma {:induction false} DumpedStep(input: seq<Byte>, width: nat, limit: int)
    requires width > 0
    ensures var got, n := Got(input, width, limit), Dumped(input, limit);
            && (got == 0 <==> n == 0) && got <= n && Dumped(input[got..], LessLimit(limit, got)) == n - got
            && input[..n] == input[..got] + input[got..][..n - got]
  {}

  lemma {:induction false} NothingShown(addr: nat)
    ensures Shown([End(addr)]) == []
  {
    ShownCons(End(addr), []);
    assert [End(addr)] + [] == [End(addr)];
  }

  /** The verbose dump shows the input up to the limit. */
  lemma {:induction false} VerboseShows(input: seq<Byte>, width: nat, limit: int, addr: nat)
    requires width > 0
    ensures Shown(Verbose(input, width, limit, addr)) == input[..Dumped(input, limit)]
    decreases |input|
  {
    var got := Got(input, width, limit);
    DumpedStep(input, width, limit);
    if got == 0 {
      NothingShown(addr);
    } else {
      var rest, limit' := input[got..], LessLimit(limit, got);
      VerboseShows(rest, width, limit', addr + got);
      ShownCons(Line(addr, input[..got]), Verbose(rest, width, limit', addr + got));
    }
  }

  /** The squeezed dump closes with the same address, and its expansion shows the same bytes. */
  lemma {:induction false} DumpEnds(
    input: seq<Byte>, width: nat, limit: int, addr: nat, prev: Option<seq<Byte>>, star: bool, verbose: bool)
    requires width > 0
    ensures var rs := Dump(input, width, limit, addr, prev, star, verbose);
            rs != [] && rs[|rs| - 1] == End(addr + Dumped(input, limit))
    decreases |input|
  {
    var got := Got(input, width, limit);
    if got != 0 {
      var line, rest, limit' := input[..got], input[got..], LessLimit(limit, got);
      DumpedStep(input, width, limit);
      if Repeats(line, width, prev, verbose) {
        DumpEnds(rest, width, limit', addr + got, prev, true, verbose);
      } else {
        DumpEnds(rest, width, limit', addr + got, if got == width then Some(line) else None, false, verbose);
      }
    }
  }

  /** The input can be read back from the squeezed dump, and the last address is skip plus bytes dumped. */
  lemma {:induction false} DumpReadsBack(input: seq<Byte>, width: nat, limit: int, skip: nat)
    requires width > 0
    ensures var rs, n := Dump(input, width, limit, skip, None, false, false), Dumped(input, limit);
            Shown(Expand(rs, End(0))) == input[..n] && rs != [] && rs[|rs| - 1] == End(skip + n)
  {
    SqueezeLossless(input, width, limit, skip);
    VerboseShows(input, width, limit, skip);
    DumpEnds(input, width, limit, skip, None, false, false);
  }

  // ----- values -----

  function Pow256(n: nat): nat { if n == 0 then 1 else 256 * Pow256(n - 1) }

  /** The number whose base-256 digits are `s`, lowest first. */
  function LittleEndian(s: seq<Byte>): nat { if s == [] then 0 else s[0] + 256 * LittleEndian(s[1..]) }

  lemma {:induction false} LittleEndianAppend(s: seq<Byte>, b: Byte)
    ensures LittleEndian(s + [b]) == LittleEndian(s) + b * Pow256(|s|)
  {
    if s == [] {
      assert s + [b] == [b];
    } else {
      LittleEndianAppend(s[1..], b);
      assert (s + [b])[1..] == s[1..] + [b];
      assert 256 * (b * Pow256(|s| - 1)) == b * Pow256(|s|);
    }
  }

  /** A unit's value: at most the bytes that are there, the missing high ones being zero. */
  method ReadVal(buf: array<Byte>, pos: nat, bytes: nat, avail: nat) returns (val: nat)
    requires Min(bytes, avail) <= 8 && pos + avail <= buf.Length
    ensures val == LittleEndian(buf[pos..pos + Min(bytes, avail)])
  {
    var n := if bytes < avail then bytes else avail;
    val := 0;
    var i := 0;
    while i < n
      invariant 0 <= i <= n && val == LittleEndian(buf[pos..pos + i])
    {
      LittleEndianAppend(buf[pos..pos + i], buf[pos + i]);
      assert buf[pos..pos + i + 1] == buf[pos..pos + i] + [buf[pos + i]];
      val := val + buf[pos + i] * Pow256(i);
      i := i + 1;
    }
  }

  /** The value tells the bytes: equal values of one size come from equal bytes. */
  lemma {:induction false} LittleEndianTells(s: seq<Byte>, t: seq<Byte>)
    requires |s| == |t| && LittleEndian(s) == LittleEndian(t)
    ensures s == t
  {
    if s != [] {
      assert LittleEndian(s) % 256 == s[0] && LittleEndian(t) % 256 == t[0];
      LittleEndianTells(s[1..], t[1..]);
      assert s == [s[0]] + s[1..] && t == [t[0]] + t[1..];
    }
  }

  // ----- the loop of the program -----

  /** `-s`: read and drop `skip` bytes across the files. */
  method SkipInput(files: seq<seq<Byte>>, skip: nat) returns (rest: seq<seq<Byte>>)
    ensures Concat(rest) == Concat(files)[Min(skip, |Concat(files)|)..]
  {
    rest := files;
    var toSkip := skip;
    while rest != [] && toSkip > 0
      invariant 0 <= toSkip <= skip && skip - toSkip <= |Concat(files)|
      invariant Concat(rest) == Concat(files)[skip - toSkip..]
      decreases toSkip, |rest|
    {
      if rest[0] == [] {
        rest := rest[1..];
      } else {
        assert Concat(rest)[1..] == rest[0][1..] + Concat(rest[1..]);
        rest := [rest[0][1..]] + rest[1..];
        toSkip := toSkip - 1;
      }
    }
  }

  /** Fill the line buffer, going on to the next file at the end of one. */
  method FillLine(files: seq<seq<Byte>>, linebuf: array<Byte>, width: nat, remaining: int)
    returns (got: nat, rest: seq<seq<Byte>>)
    requires width <= linebuf.Length
    modifies linebuf
    ensures got == Got(Concat(files), width, remaining)
    ensures linebuf[..got] == Concat(files)[..got] && Concat(rest) == Concat(files)[got..]
  {
    got, rest := 0, files;
    while got < width && !(remaining >= 0 && got >= remaining)
      invariant got <= width && (remaining >= 0 ==> got <= remaining) && got <= |Concat(files)|
      invariant linebuf[..got] == Concat(files)[..got] && Concat(rest) == Concat(files)[got..]
    {
      rest := NextFile(rest);
      if rest == [] { break; }
      var ch := rest[0][0];
      assert Concat(rest)[1..] == rest[0][1..] + Concat(rest[1..]);
      rest := [rest[0][1..]] + rest[1..];
      linebuf[got] := ch;
      got := got + 1;
    }
  }

  /** Drop the files that are at their end. */
  method NextFile(files: seq<seq<Byte>>) returns (rest: seq<seq<Byte>>)
    ensures Concat(rest) == Concat(files) && (rest != [] ==> rest[0] != [])
  {
    rest := files;
    while rest != [] && rest[0] == []
      invariant Concat(rest) == Concat(files)
    {
      rest := rest[1..];
    }
  }

  function Remembered(valid: bool, line: seq<Byte>): Option<seq<Byte>> { if valid then Some(line) else None }

  method CopyLine(to: array<Byte>, from: array<Byte>, n: nat)
    requires n <= to.Length && n <= from.Length && to != from
    modifies to
    ensures to[..n] == from[..n] && from[..n] == old(from[..n])
  {
    forall i | 0 <= i < n { to[i] := from[i]; }
  }

  /** A round of the loop that finds a repeat. */
  lemma {:induction false} DumpRepeats(
    out: seq<Record>, input: seq<Byte>, got: nat, width: nat, limit: int, addr: nat, prev: Option<seq<Byte>>,
    star: bool)
    requires 0 < got == Got(input, width, limit) && Repeats(input[..got], width, prev, false)
    ensures out + Dump(input, width, limit, addr, prev, star, false)
         == (if star then out else out + [Star])
            + Dump(input[got..], width, LessLimit(limit, got), addr + got, prev, true, false)
  {}

  /** A round of the loop that prints a line. */
  lemma {:induction false} DumpPrints(
    out: seq<Record>, input: seq<Byte>, got: nat, width: nat, limit: int, addr: nat, prev: Option<seq<Byte>>,
    star: bool, verbose: bool)
    requires 0 < got == Got(input, width, limit) && !Repeats(input[..got], width, prev, verbose)
    ensures out + Dump(input, width, limit, addr, prev, star, verbose)
         == (out + [Line(addr, input[..got])])
            + Dump(input[got..], width, LessLimit(limit, got), addr + got,
                   Remembered(got == width, input[..got]), false, verbose)
  {}

  method DoDump(files: seq<seq<Byte>>, width: nat, skip: nat, length: int, verbose: bool) returns (out: seq<Record>)
    requires 0 < width <= LINE_SPACE
    ensures out == Dump(Concat(files), width, length, skip, None, false, verbose)
  {
    var rest, remaining, offset := files, length, skip;
    var linebuf := new Byte[LINE_SPACE](_ => 0);
    var prevLine := new Byte[LINE_SPACE](_ => 0);
    var prevValid, starPrinted := false, false;
    ghost var prev := None;
    out := [];
    while true
      invariant prev == Remembered(prevValid, prevLine[..width])
      invariant out + Dump(Concat(rest), width, remaining, offset, prev, starPrinted, verbose)
             == Dump(Concat(files), width, length, skip, None, false, verbose)
      decreases |Concat(rest)|
    {
      if remaining == 0 { break; }
      ghost var input := Concat(rest);
      var got;
      got, rest := FillLine(rest, linebuf, width, remaining);
      if got == 0 { break; }
      if !verbose && prevValid && got == width && linebuf[..got] == prevLine[..got] {
        DumpRepeats(out, input, got, width, remaining, offset, prev, starPrinted);
        if !starPrinted {
          out := out + [Star];
          starPrinted := true;
        }
      } else {
        DumpPrints(out, input, got, width, remaining, offset, prev, starPrinted, verbose);
        starPrinted := false;
        CopyLine(prevLine, linebuf, got);
        prevValid := got == width;
        prev := Remembered(prevValid, prevLine[..width]);
        out := out + [Line(offset, linebuf[..got])];
      }
      if remaining > 0 { remaining := remaining - got; }
      offset := offset + got;
    }
    out := out + [End(offset)];
  }
}
