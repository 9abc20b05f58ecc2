/**
 The pager of user/less.c as the program keeps it: the line array, the partial
 line, the pipe, the viewport and the marks are variables that the loaders and
 the commands update. Each method is proved against the pager functions.
 */
module LessTerminal {
  import opened Bytes
  import opened LessStore
  import opened LessPager

  class Less {
    var lines: seq<Line>
    var capacity: nat
    var linebuf: Line
    var prevBlank: bool
    var input: seq<seq<Byte>>
    var pipeOpen: bool
    var topLine: int
    var screenLines: nat
    var marks: map<int, int>
    var forward: bool
    const squeeze: bool

    constructor (chunks: seq<seq<Byte>>, screen: nat, squeezeBlank: bool)
      ensures State() == Start(chunks, screen) && squeeze == squeezeBlank
    {
      lines, capacity, linebuf, prevBlank := [], 0, [], false;
      input, pipeOpen := chunks, true;
      topLine, screenLines, marks, forward := 0, screen, map[], true;
      squeeze := squeezeBlank;
    }

    function Kept(): Store
      reads this
    {
      Store(lines, capacity, linebuf, prevBlank)
    }

    function State(): Pager
      reads this
    {
      Pager(Kept(), input, pipeOpen, topLine, screenLines, marks, forward)
    }

    method AddLine(text: Line) returns (ok: bool)
      modifies this
      ensures State() == old(State()).(st := LessStore.AddLine(old(Kept()), text))
      ensures ok == !Full(old(Kept()))
    {
      if |lines| >= capacity {
        var newCap := if capacity == 0 then FIRST_CAPACITY else capacity * 2;
        if newCap > MAX_ALLOC_LINES { newCap := MAX_ALLOC_LINES; }
        if |lines| >= newCap { return false; }
        capacity := newCap;
      }
      lines := lines + [text];
      return true;
    }

    /** One byte, as every reading loop treats it; `ok` is the answer of `AddLine`. */
    method TakeByte(b: Byte) returns (ok: bool)
      modifies this
      ensures ok == !Stuck(old(Kept()), b, squeeze)
      ensures State().(st := Kept()) == old(State()).(st := Kept())
      ensures ok ==> Kept() == FeedByte(old(Kept()), b, squeeze)
      ensures !ok ==> Kept() == old(Kept()).(prevBlank := old(linebuf) == [])
    {
      if b == NEWLINE || |linebuf| >= LINE_MAX {
        var isBlank := linebuf == [];
        if squeeze && isBlank && prevBlank {
          linebuf := [];
          return true;
        }
        prevBlank := isBlank;
        ok := AddLine(linebuf);
        if ok { linebuf := []; }
      } else {
        linebuf := linebuf + [b];
        ok := true;
      }
    }

    /** A chunk, every line that finds no room being lost. */
    method TakeChunk(chunk: seq<Byte>)
      modifies this
      ensures State() == old(State()).(st := Feed(old(Kept()), chunk, squeeze))
    {
      var i := 0;
      while i < |chunk|
        invariant 0 <= i <= |chunk|
        invariant State() == old(State()).(st := Kept())
        invariant Feed(Kept(), chunk[i..], squeeze) == Feed(old(Kept()), chunk, squeeze)
      {
        var ok := TakeByte(chunk[i]);
        if !ok { linebuf := []; }
        i := i + 1;
      }
    }

    /** A chunk, up to the first line that finds no room. */
    method TakeStrict(chunk: seq<Byte>) returns (ok: bool)
      modifies this
      ensures Fed(Kept(), ok) == FeedStrict(old(Kept()), chunk, squeeze)
      ensures State() == old(State()).(st := Kept())
    {
      var i := 0;
      ok := true;
      while i < |chunk|
        invariant 0 <= i <= |chunk|
        invariant State() == old(State()).(st := Kept())
        invariant FeedStrict(Kept(), chunk[i..], squeeze) == FeedStrict(old(Kept()), chunk, squeeze)
      {
        ok := TakeByte(chunk[i]);
        if !ok { return; }
        i := i + 1;
      }
      ok := true;
    }

    method FlushTail() returns (ok: bool)
      modifies this
      ensures State() == old(State()).(st := Flush(old(Kept())))
      ensures ok == (old(linebuf) == [] || !Full(old(Kept())))
    {
      ok := true;
      if linebuf != [] {
        ok := AddLine(linebuf);
        linebuf := [];
      }
    }

    method LoadFile() returns (ok: bool)
      requires Kept() == EMPTY_STORE
      modifies this
      ensures Fed(Kept(), ok) == LoadFd(EMPTY_STORE, old(input), squeeze)
    {
      while input != []
        invariant LoadFd(Kept(), input, squeeze) == LoadFd(EMPTY_STORE, old(input), squeeze)
        decreases |input|
      {
        var chunk := input[0];
        input := input[1..];
        ok := TakeStrict(chunk);
        if !ok { return; }
      }
      ok := FlushTail();
    }

    /** The first screenful. */
    method LoadFirst() returns (ok: bool)
      requires pipeOpen
      modifies this
      ensures Loaded(State(), ok) == LoadPipe(old(State()), old(screenLines) + 1, squeeze)
    {
      var need := screenLines + 1;
      while |lines| < need
        invariant pipeOpen && screenLines == old(screenLines)
        invariant LoadPipe(State(), need, squeeze) == LoadPipe(old(State()), need, squeeze)
        decreases |input|
      {
        if input == [] {
          ok := FlushTail();
          pipeOpen := false;
          return true;
        }
        var chunk := input[0];
        input := input[1..];
        ok := TakeStrict(chunk);
        if !ok {
          pipeOpen := false;
          return;
        }
      }
      ok := true;
    }

    /** One read from the pipe: its next bytes, or its end. */
    method ReadChunk()
      requires pipeOpen
      modifies this
      ensures var p := old(State()); State() == if p.input == [] then CloseEnd(p) else FeedNext(p, squeeze)
    {
      if input == [] {
        var _ := FlushTail();
        pipeOpen := false;
      } else {
        var chunk := input[0];
        input := input[1..];
        TakeChunk(chunk);
      }
    }

    /** Non-blocking reads, `ready` of which find data. */
    method ReadReady(ready: nat)
      modifies this
      ensures State() == Do(old(State()), ReadMore(ready), squeeze)
    {
      var k := ready;
      while pipeOpen && k > 0
        invariant ReadSome(State(), k, squeeze) == ReadSome(old(State()), ready, squeeze)
        decreases k
      {
        ReadChunk();
        k := k - 1;
      }
    }

    method ClampTop(top: int)
      modifies this`topLine
      ensures topLine == Clamp(top, |lines|, screenLines)
    {
      topLine := top;
      if topLine > |lines| - screenLines { topLine := |lines| - screenLines; }
      if topLine < 0 { topLine := 0; }
    }

    /** Blocking reads until `want` lines exist or the stream ends. */
    method ReadLines(want: int)
      modifies this
      ensures State() == ReadUntil(old(State()), want, squeeze)
    {
      while pipeOpen && |lines| < want
        invariant ReadUntil(State(), want, squeeze) == ReadUntil(old(State()), want, squeeze)
        decreases |input|, pipeOpen
      {
        ReadChunk();
      }
    }

    method GoForward(count: int)
      modifies this
      ensures State() == Do(old(State()), Forward(count), squeeze)
    {
      var n := if count <= 0 then screenLines else count;
      ghost var p, want := State(), topLine + n + screenLines;
      ReadUntilGrew(p, want, squeeze);
      ReadLines(topLine + n + screenLines);
      ClampTop(topLine + n);
    }

    method GoBackward(count: int)
      modifies this
      ensures State() == Do(old(State()), Backward(count), squeeze)
    {
      var n := if count <= 0 then screenLines else count;
      topLine := topLine - n;
      if topLine < 0 { topLine := 0; }
    }

    method ZoomForward(count: nat)
      modifies this
      ensures State() == Do(old(State()), ResizeForward(count), squeeze)
    {
      screenLines := count;
      GoForward(screenLines);
    }

    method ZoomBackward(count: nat)
      modifies this
      ensures State() == Do(old(State()), ResizeBackward(count), squeeze)
    {
      screenLines := count;
      GoBackward(screenLines);
    }

    method GoToLine(count: int)
      modifies this
      ensures State() == Do(old(State()), GotoLine(count), squeeze)
    {
      var n := if count <= 0 then 1 else count;
      ClampTop(n - 1);
    }

    method GoToEnd(count: int)
      modifies this
      ensures State() == Do(old(State()), GotoEnd(count), squeeze)
    {
      if count > 0 {
        GoToLine(count);
        return;
      }
      while pipeOpen
        invariant Drain(State(), squeeze) == Drain(old(State()), squeeze)
        decreases |input|, pipeOpen
      {
        ReadChunk();
      }
      topLine := |lines| - screenLines;
      if topLine < 0 { topLine := 0; }
    }

    method GoToPercent(count: int)
      modifies this
      ensures State() == Do(old(State()), GotoPercent(count), squeeze)
    {
      var n := if count < 0 then 0 else if count > 100 then 100 else count;
      ClampTop(|lines| * n / 100);
    }

    method Search(start: int, up: bool, hit: Line -> bool) returns (found: int)
      ensures found == SearchNext(lines, if up then start + 1 else start - 1, up, hit)
    {
      var i := if up then start + 1 else start - 1;
      while 0 <= i < |lines|
        invariant SearchNext(lines, i, up, hit) == SearchNext(lines, if up then start + 1 else start - 1, up, hit)
        decreases if up then |lines| - i else i + 1
      {
        if hit(lines[i]) { return i; }
        i := if up then i + 1 else i - 1;
      }
      found := -1;
    }

    method SearchForwards(hit: Line -> bool)
      modifies this
      ensures State() == Do(old(State()), SearchForward(hit), squeeze)
    {
      forward := true;
      var found := Search(topLine, true, hit);
      if found >= 0 { ClampTop(found); }
    }

    method SearchBackwards(hit: Line -> bool)
      modifies this
      ensures State() == Do(old(State()), SearchBackward(hit), squeeze)
    {
      forward := false;
      var found := Search(topLine, false, hit);
      if found >= 0 { topLine := found; }
    }

    method SearchAgain(same: bool, hit: Line -> bool)
      modifies this
      ensures State() == Do(old(State()), NextMatch(same, hit), squeeze)
    {
      var found := Search(topLine, same == forward, hit);
      if found >= 0 { ClampTop(found); }
    }

    method Mark(ch: int)
      modifies this
      ensures State() == Do(old(State()), SetMark(ch), squeeze)
    {
      if 0 <= ch < 128 { marks := marks[ch := topLine]; }
    }

    method GoToMark(ch: int)
      modifies this
      ensures State() == Do(old(State()), GotoMark(ch), squeeze)
    {
      if 0 <= ch < 128 && ch in marks {
        topLine := marks[ch];
        if topLine < 0 { topLine := 0; }
      }
    }
  }
}
