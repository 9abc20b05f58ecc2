/**
 The line store of user/less.c: lines are cut out of a byte stream one byte at
 a time, at newlines and when the line buffer is full, and appended to an array
 that grows by doubling.
 */
module LessStore {
  import opened Bytes

  const LINE_MAX := 16383          // sizeof(linebuf) - 1
  const MAX_ALLOC_LINES := 1048576
  const FIRST_CAPACITY := 4096

  const NEWLINE: Byte := 10

  type Line = seq<Byte>

  /** The line array with its capacity, the partial line, and the blank-line flag. */
  datatype Store = Store(lines: seq<Line>, capacity: nat, buf: Line, prevBlank: bool)

  const EMPTY_STORE := Store([], 0, [], false)

  function Grown(capacity: nat): nat { Min(MAX_ALLOC_LINES, if capacity == 0 then FIRST_CAPACITY else capacity * 2) }

  predicate Full(s: Store) { |s.lines| >= s.capacity && |s.lines| >= Grown(s.capacity) }

  /** Append a line, or leave the store alone when the array cannot grow. */
  function AddLine(s: Store, text: Line): Store {
    if Full(s) then s
    else s.(lines := s.lines + [text], capacity := if |s.lines| >= s.capacity then Grown(s.capacity) else s.capacity)
  }

  /** A byte completes the current line. */
  predicate Cuts(buf: Line, b: Byte) { b == NEWLINE || |buf| >= LINE_MAX }

  predicate Squeezed(buf: Line, prevBlank: bool, squeeze: bool) { squeeze && buf == [] && prevBlank }

  /** One byte of input; a line that finds no room is lost. */
  function FeedByte(s: Store, b: Byte, squeeze: bool): Store {
    if !Cuts(s.buf, b) then s.(buf := s.buf + [b])
    else if Squeezed(s.buf, s.prevBlank, squeeze) then s.(buf := [])
    else AddLine(s, s.buf).(buf := [], prevBlank := s.buf == [])
  }

  function Feed(s: Store, bytes: seq<Byte>, squeeze: bool): Store
    decreases |bytes|
  {
    if bytes == [] then s else Feed(FeedByte(s, bytes[0], squeeze), bytes[1..], squeeze)
  }

  /** The byte at which the loaders give up: it completes a line that finds no room. */
  predicate Stuck(s: Store, b: Byte, squeeze: bool) {
    Cuts(s.buf, b) && !Squeezed(s.buf, s.prevBlank, squeeze) && Full(s)
  }

  datatype Fed = Fed(s: Store, ok: bool)

  /** Feeding as `load_fd` and `load_pipe` do: stop at the first line that finds no room. */
  function FeedStrict(s: Store, bytes: seq<Byte>, squeeze: bool): Fed
    decreases |bytes|
  {
    if bytes == [] then Fed(s, true)
    else if Stuck(s, bytes[0], squeeze) then Fed(s.(prevBlank := s.buf == []), false)
    else FeedStrict(FeedByte(s, bytes[0], squeeze), bytes[1..], squeeze)
  }

  /** End of input: a partial line becomes the last line. */
  function Flush(s: Store): Store { if s.buf == [] then s else AddLine(s, s.buf).(buf := []) }

  // ----- the same without any limit -----

  datatype Split = Split(lines: seq<Line>, buf: Line, prevBlank: bool)

  const NO_LINES := Split([], [], false)

  function SplitByte(u: Split, b: Byte, squeeze: bool): Split {
    if !Cuts(u.buf, b) then u.(buf := u.buf + [b])
    else if Squeezed(u.buf, u.prevBlank, squeeze) then u.(buf := [])
    else Split(u.lines + [u.buf], [], u.buf == [])
  }

  function SplitAll(u: Split, bytes: seq<Byte>, squeeze: bool): Split
    decreases |bytes|
  {
    if bytes == [] then u else SplitAll(SplitByte(u, bytes[0], squeeze), bytes[1..], squeeze)
  }

  function Finish(u: Split): seq<Line> { if u.buf == [] then u.lines else u.lines + [u.buf] }

  /** The lines of a whole stream. */
  function LinesOf(stream: seq<Byte>, squeeze: bool): seq<Line> { Finish(SplitAll(NO_LINES, stream, squeeze)) }

  function Take(ls: seq<Line>): (r: seq<Line>)
    ensures |r| <= MAX_ALLOC_LINES && r <= ls
  {
    ls[..Min(|ls|, MAX_ALLOC_LINES)]
  }

  lemma {:induction false} SplitConcat(u: Split, a: seq<Byte>, b: seq<Byte>, squeeze: bool)
    ensures SplitAll(u, a + b, squeeze) == SplitAll(SplitAll(u, a, squeeze), b, squeeze)
    decreases |a|
  {
    if a == [] {
      assert a + b == b;
    } else {
      assert (a + b)[0] == a[0] && (a + b)[1..] == a[1..] + b;
      SplitConcat(SplitByte(u, a[0], squeeze), a[1..], b, squeeze);
    }
  }

  lemma {:induction false} SplitGrows(u: Split, bytes: seq<Byte>, squeeze: bool)
    ensures u.lines <= SplitAll(u, bytes, squeeze).lines
    decreases |bytes|
  {
    if bytes != [] { SplitGrows(SplitByte(u, bytes[0], squeeze), bytes[1..], squeeze); }
  }

  // ----- the store holds the first 1048576 lines -----

  ghost predicate RoomOk(s: Store) {
    |s.lines| <= s.capacity <= MAX_ALLOC_LINES && (s.capacity == 0 || s.capacity >= FIRST_CAPACITY)
  }

  ghost predicate Holds(s: Store, u: Split) {
    RoomOk(s) && s.lines == Take(u.lines) && s.buf == u.buf && s.prevBlank == u.prevBlank
  }

  /** A sound store refuses a line exactly when it has all it can ever hold. */
  lemma {:induction false} FullExactly(s: Store)
    requires RoomOk(s)
    ensures Full(s) <==> |s.lines| == MAX_ALLOC_LINES
  {}

  lemma {:induction false} AddHolds(s: Store, ls: seq<Line>, text: Line)
    requires RoomOk(s) && s.lines == Take(ls)
    ensures RoomOk(AddLine(s, text)) && AddLine(s, text).lines == Take(ls + [text])
  {
    FullExactly(s);
  }

  lemma {:induction false} FeedByteHolds(s: Store, u: Split, b: Byte, squeeze: bool)
    requires Holds(s, u)
    ensures Holds(FeedByte(s, b, squeeze), SplitByte(u, b, squeeze))
  {
    AddHolds(s, u.lines, u.buf);
  }

  lemma {:induction false} FeedHolds(s: Store, u: Split, bytes: seq<Byte>, squeeze: bool)
    requires Holds(s, u)
    ensures Holds(Feed(s, bytes, squeeze), SplitAll(u, bytes, squeeze))
    decreases |bytes|
  {
    if bytes != [] {
      FeedByteHolds(s, u, bytes[0], squeeze);
      FeedHolds(FeedByte(s, bytes[0], squeeze), SplitByte(u, bytes[0], squeeze), bytes[1..], squeeze);
    }
  }

  /** A loader that gives up has the first 1048576 lines of whatever the stream would have given. */
  lemma {:induction false} FeedStrictHolds(s: Store, u: Split, bytes: seq<Byte>, squeeze: bool)
    requires Holds(s, u)
    ensures var r := FeedStrict(s, bytes, squeeze);
            && (r.ok ==> r.s == Feed(s, bytes, squeeze) && Holds(r.s, SplitAll(u, bytes, squeeze)))
            && RoomOk(r.s)
            && (!r.ok ==> r.s.lines == Take(SplitAll(u, bytes, squeeze).lines) && |r.s.lines| == MAX_ALLOC_LINES)
            && (|u.lines| <= MAX_ALLOC_LINES ==> (r.ok <==> |SplitAll(u, bytes, squeeze).lines| <= MAX_ALLOC_LINES))
    decreases |bytes|
  {
    if bytes != [] {
      FullExactly(s);
      SplitGrows(u, bytes, squeeze);
      SplitGrows(SplitByte(u, bytes[0], squeeze), bytes[1..], squeeze);
      FeedByteHolds(s, u, bytes[0], squeeze);
      FeedStrictHolds(FeedByte(s, bytes[0], squeeze), SplitByte(u, bytes[0], squeeze), bytes[1..], squeeze);
    }
  }

  lemma {:induction false} FlushHolds(s: Store, u: Split)
    requires Holds(s, u)
    ensures RoomOk(Flush(s)) && Flush(s).lines == Take(Finish(u))
  {
    AddHolds(s, u.lines, u.buf);
  }

  lemma {:induction false} FeedGrows(s: Store, bytes: seq<Byte>, squeeze: bool)
    ensures s.lines <= Feed(s, bytes, squeeze).lines
    decreases |bytes|
  {
    if bytes != [] { FeedGrows(FeedByte(s, bytes[0], squeeze), bytes[1..], squeeze); }
  }

  // ----- what the lines are -----

  /** The text book split at newlines: a last line without newline counts, an empty one does not. */
  function TextLines(s: seq<Byte>, cur: Line): seq<Line>
    decreases |s|
  {
    if s == [] then (if cur == [] then [] else [cur])
    else if s[0] == NEWLINE then [cur] + TextLines(s[1..], [])
    else TextLines(s[1..], cur + [s[0]])
  }

  /** Blank lines behind a blank line are dropped. */
  function Squeeze(ls: seq<Line>, prevBlank: bool): seq<Line> {
    if ls == [] then []
    else if ls[0] == [] && prevBlank then Squeeze(ls[1..], prevBlank)
    else [ls[0]] + Squeeze(ls[1..], ls[0] == [])
  }

  function Wanted(stream: seq<Byte>, squeeze: bool): seq<Line> {
    if squeeze then Squeeze(TextLines(stream, []), false) else TextLines(stream, [])
  }

  predicate Short(ls: seq<Line>) { forall i :: 0 <= i < |ls| ==> |ls[i]| <= LINE_MAX }

  function Unlines(ls: seq<Line>): seq<Byte> {
    if ls == [] then [] else ls[0] + [NEWLINE] + Unlines(ls[1..])
  }

  /** A stream with its last newline supplied if it lacks one. */
  function Closed(s: seq<Byte>): seq<Byte> {
    if s == [] || s[|s| - 1] == NEWLINE then s else s + [NEWLINE]
  }

  lemma {:induction false} UnlinesCons(x: Line, rest: seq<Line>)
    ensures Unlines([x] + rest) == x + [NEWLINE] + Unlines(rest)
  {
    assert ([x] + rest)[1..] == rest;
  }

  lemma {:induction false} UnlinesLast(cur: Line)
    requires NEWLINE !in cur
    ensures Unlines(TextLines([], cur)) == Closed(cur)
  {
    assert [cur][1..] == [];
  }

  lemma {:induction false} ClosedBehind(a: seq<Byte>, b: seq<Byte>)
    ensures Closed(a + [NEWLINE] + b) == a + [NEWLINE] + Closed(b)
  {
    if b == [] {
      assert a + [NEWLINE] + b == a + [NEWLINE];
    } else {
      assert (a + [NEWLINE] + b)[|a| + |b|] == b[|b| - 1];
      assert a + [NEWLINE] + b + [NEWLINE] == a + [NEWLINE] + (b + [NEWLINE]);
    }
  }

  lemma {:induction false} UnlinesNewline(s: seq<Byte>, cur: Line)
    requires s != [] && s[0] == NEWLINE && Unlines(TextLines(s[1..], [])) == Closed([] + s[1..])
    ensures Unlines(TextLines(s, cur)) == Closed(cur + s)
  {
    assert [] + s[1..] == s[1..];
    UnlinesCons(cur, TextLines(s[1..], []));
    assert cur + s == cur + [NEWLINE] + s[1..];
    ClosedBehind(cur, s[1..]);
  }

  /** Writing the text book lines out gives the stream back. */
  lemma {:induction false} UnlinesTextLines(s: seq<Byte>, cur: Line)
    requires NEWLINE !in cur
    ensures Unlines(TextLines(s, cur)) == Closed(cur + s)
    decreases |s|
  {
    if s == [] {
      assert cur + s == cur;
      UnlinesLast(cur);
    } else if s[0] == NEWLINE {
      UnlinesTextLines(s[1..], []);
      UnlinesNewline(s, cur);
    } else {
      UnlinesTextLines(s[1..], cur + [s[0]]);
      assert cur + [s[0]] + s[1..] == cur + s;
    }
  }

  /** No line holds a newline. */
  predicate Clean(ls: seq<Line>) { forall i :: 0 <= i < |ls| ==> NEWLINE !in ls[i] }

  lemma {:induction false} TextLinesClean(s: seq<Byte>, cur: Line)
    requires NEWLINE !in cur
    ensures Clean(TextLines(s, cur))
    decreases |s|
  {
    if s != [] { TextLinesClean(s[1..], if s[0] == NEWLINE then [] else cur + [s[0]]); }
  }

  /** The number of bytes in front of the first newline. */
  function FirstLength(s: seq<Byte>): nat { if s == [] || s[0] == NEWLINE then 0 else 1 + FirstLength(s[1..]) }

  lemma {:induction false} FirstLengthIs(x: Line, a: seq<Byte>)
    requires NEWLINE !in x
    ensures FirstLength(x + [NEWLINE] + a) == |x|
  {
    var t := x + [NEWLINE] + a;
    if x != [] {
      assert t[1..] == x[1..] + [NEWLINE] + a;
      FirstLengthIs(x[1..], a);
    }
  }

  /** The first newline tells where the first line ends. */
  lemma {:induction false} FirstLineTells(x: Line, a: seq<Byte>, y: Line, b: seq<Byte>)
    requires NEWLINE !in x && NEWLINE !in y && x + [NEWLINE] + a == y + [NEWLINE] + b
    ensures x == y && a == b
  {
    var t, u := x + [NEWLINE] + a, y + [NEWLINE] + b;
    FirstLengthIs(x, a);
    FirstLengthIs(y, b);
    assert x == t[..|x|] && y == u[..|y|] && a == t[|x| + 1..] && b == u[|y| + 1..];
  }

  lemma {:induction false} UnlinesTells(ls: seq<Line>, ms: seq<Line>)
    requires Clean(ls) && Clean(ms) && Unlines(ls) == Unlines(ms)
    ensures ls == ms
  {
    if ls != [] && ms != [] {
      FirstLineTells(ls[0], Unlines(ls[1..]), ms[0], Unlines(ms[1..]));
      UnlinesTells(ls[1..], ms[1..]);
      assert ls == [ls[0]] + ls[1..] && ms == [ms[0]] + ms[1..];
    }
  }

  /** The text book lines are the only newline-free lines that make up the stream, its last newline supplied. */
  lemma {:induction false} TextLinesExact(s: seq<Byte>, ls: seq<Line>)
    ensures ls == TextLines(s, []) <==> Clean(ls) && Unlines(ls) == Closed(s)
  {
    assert [] + s == s;
    TextLinesClean(s, []);
    UnlinesTextLines(s, []);
    if Clean(ls) && Unlines(ls) == Closed(s) { UnlinesTells(ls, TextLines(s, [])); }
  }

  // ----- the splitter and the text book -----

  function Squeezing(ls: seq<Line>, prevBlank: bool, squeeze: bool): seq<Line> {
    if squeeze then Squeeze(ls, prevBlank) else ls
  }

  /** The line being collected is part of the next line. */
  lemma {:induction false} FirstLineLong(s: seq<Byte>, cur: Line)
    requires cur != []
    ensures TextLines(s, cur) != [] && |TextLines(s, cur)[0]| >= |cur|
    decreases |s|
  {
    if s != [] && s[0] != NEWLINE { FirstLineLong(s[1..], cur + [s[0]]); }
  }

  lemma {:induction false} ShortSplit(u: Split, bytes: seq<Byte>, squeeze: bool)
    requires Short(TextLines(bytes, u.buf))
    ensures Finish(SplitAll(u, bytes, squeeze)) == u.lines + Squeezing(TextLines(bytes, u.buf), u.prevBlank, squeeze)
    decreases |bytes|
  {
    var ls := TextLines(bytes, u.buf);
    if bytes == [] {
      assert u.buf != [] ==> Squeeze([u.buf], u.prevBlank) == [u.buf] + Squeeze([u.buf][1..], false) == [u.buf];
    } else {
      var v, rest := SplitByte(u, bytes[0], squeeze), bytes[1..];
      if bytes[0] == NEWLINE {
        assert ls[1..] == TextLines(rest, []) && Short(ls[1..]);
        ShortSplit(v, rest, squeeze);
      } else {
        FirstLineLong(rest, u.buf + [bytes[0]]);
        assert |ls[0]| <= LINE_MAX;
        ShortSplit(v, rest, squeeze);
      }
    }
  }

  lemma {:induction false} SplitShort(u: Split, bytes: seq<Byte>, squeeze: bool)
    requires Short(u.lines) && |u.buf| <= LINE_MAX
    ensures Short(Finish(SplitAll(u, bytes, squeeze)))
    decreases |bytes|
  {
    if bytes != [] { SplitShort(SplitByte(u, bytes[0], squeeze), bytes[1..], squeeze); }
  }

  lemma {:induction false} SqueezeShort(ls: seq<Line>, prevBlank: bool)
    requires Short(Squeeze(ls, prevBlank))
    ensures Short(ls)
  {
    if ls != [] {
      if ls[0] == [] && prevBlank {
        SqueezeShort(ls[1..], prevBlank);
      } else {
        var rest := Squeeze(ls[1..], ls[0] == []);
        assert Squeeze(ls, prevBlank)[0] == ls[0] && Squeeze(ls, prevBlank)[1..] == rest;
        assert forall i :: 0 <= i < |rest| ==> rest[i] == Squeeze(ls, prevBlank)[i + 1];
        SqueezeShort(ls[1..], ls[0] == []);
      }
      assert forall i :: 1 <= i < |ls| ==> ls[i] == ls[1..][i - 1];
    }
  }

  /** The store's lines are the text book lines exactly when no line is longer than 16383 bytes. */
  lemma {:induction false} LinesExact(stream: seq<Byte>, squeeze: bool)
    ensures LinesOf(stream, squeeze) == Wanted(stream, squeeze) <==> Short(TextLines(stream, []))
  {
    if Short(TextLines(stream, [])) {
      ShortSplit(NO_LINES, stream, squeeze);
    } else {
      SplitShort(NO_LINES, stream, squeeze);
      if squeeze && Short(Wanted(stream, squeeze)) { SqueezeShort(TextLines(stream, []), false); }
    }
  }
}
