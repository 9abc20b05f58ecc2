/**
 The pager of user/less.c: reading a pipe piece by piece, and the commands that
 move the viewport over the growing line store.
 */
module LessPager {
  import opened Bytes
  import opened LessStore

  /**
   The store, the reads still to come (each with at least one byte, the end of
   the list being the end of the stream), whether the pipe is open, the first
   visible line, the window height, the marks and whether the last search went forward.
   */
  datatype Pager = Pager(
    st: Store, input: seq<seq<Byte>>, open: bool, top: int, screen: nat, marks: map<int, int>, forward: bool)

  function Total(p: Pager): nat { |p.st.lines| }

  // ----- reading -----

  function CloseEnd(p: Pager): Pager { p.(st := Flush(p.st), open := false) }

  function FeedNext(p: Pager, squeeze: bool): Pager
    requires p.input != []
  {
    p.(st := Feed(p.st, p.input[0], squeeze), input := p.input[1..])
  }

  /** Blocking reads until `want` lines exist or the stream ends. */
  function ReadUntil(p: Pager, want: int, squeeze: bool): Pager
    decreases |p.input|
  {
    if !p.open || Total(p) >= want then p
    else if p.input == [] then CloseEnd(p)
    else ReadUntil(FeedNext(p, squeeze), want, squeeze)
  }

  /** Blocking reads to the end of the stream. */
  function Drain(p: Pager, squeeze: bool): Pager
    decreases |p.input|
  {
    if !p.open then p
    else if p.input == [] then CloseEnd(p)
    else Drain(FeedNext(p, squeeze), squeeze)
  }

  /** Non-blocking reads: `k` of them succeed before the pipe has nothing ready. */
  function ReadSome(p: Pager, k: nat, squeeze: bool): Pager
    decreases |p.input|
  {
    if !p.open || k == 0 then p
    else if p.input == [] then CloseEnd(p)
    else ReadSome(FeedNext(p, squeeze), k - 1, squeeze)
  }

  datatype Loaded = Loaded(p: Pager, ok: bool)

  /** The first screenful; a line that finds no room closes the pipe and fails. */
  function LoadPipe(p: Pager, need: nat, squeeze: bool): Loaded
    decreases |p.input|
  {
    if Total(p) >= need then Loaded(p, true)
    else if p.input == [] then Loaded(CloseEnd(p), true)
    else
      var r := FeedStrict(p.st, p.input[0], squeeze);
      var q := p.(st := r.s, input := p.input[1..]);
      if r.ok then LoadPipe(q, need, squeeze) else Loaded(q.(open := false), false)
  }

  function Start(chunks: seq<seq<Byte>>, screen: nat): Pager {
    Pager(EMPTY_STORE, chunks, true, 0, screen, map[], true)
  }

  /** Loading a whole file. */
  function LoadFd(s: Store, chunks: seq<seq<Byte>>, squeeze: bool): Fed
    decreases |chunks|
  {
    if chunks == [] then Fed(Flush(s), s.buf == [] || !Full(s))
    else
      var r := FeedStrict(s, chunks[0], squeeze);
      if r.ok then LoadFd(r.s, chunks[1..], squeeze) else r
  }

  // ----- commands -----

  datatype Command =
    | Forward(n: int) | Backward(n: int) | ForwardLine(n: int) | BackwardLine(n: int)
    | ResizeForward(count: nat) | ResizeBackward(count: nat)
    | GotoLine(n: int) | GotoEnd(n: int) | GotoPercent(n: int)
    | SearchForward(hit: Line -> bool) | SearchBackward(hit: Line -> bool) | NextMatch(same: bool, hit: Line -> bool)
    | SetMark(ch: int) | GotoMark(ch: int)
    | ReadMore(k: nat)

  /** At most the last full window, and not before the first line. */
  function Clamp(top: int, total: nat, screen: nat): (r: int)
    ensures 0 <= r <= Max(0, total - screen)
    ensures 0 <= top <= total - screen ==> r == top
  {
    if top > total - screen then Max(0, total - screen) else Max(0, top)
  }

  function DoForward(p: Pager, count: int, squeeze: bool): Pager {
    var n := if count <= 0 then p.screen else count;
    var q := ReadUntil(p, p.top + n + p.screen, squeeze);
    q.(top := Clamp(p.top + n, Total(q), p.screen))
  }

  function DoBackward(p: Pager, count: int): Pager {
    var n := if count <= 0 then p.screen else count;
    p.(top := Max(0, p.top - n))
  }

  function DoGotoLine(p: Pager, n: int): Pager {
    p.(top := Clamp((if n <= 0 then 1 else n) - 1, Total(p), p.screen))
  }

  /** The nearest line from `i` on, upwards or downwards, that matches, or -1. */
  function SearchNext(lines: seq<Line>, i: int, up: bool, hit: Line -> bool): (r: int)
    ensures r == -1 || (0 <= r < |lines| && hit(lines[r]) && if up then i <= r else r <= i)
    ensures up && 0 <= i ==> forall j :: i <= j < |lines| && hit(lines[j]) ==> i <= r <= j
    ensures !up && i < |lines| ==> forall j :: 0 <= j <= i && hit(lines[j]) ==> j <= r <= i
    decreases if up then |lines| - i else i + 1
  {
    if i < 0 || i >= |lines| then -1
    else if hit(lines[i]) then i
    else SearchNext(lines, if up then i + 1 else i - 1, up, hit)
  }

  function Found(p: Pager, up: bool, hit: Line -> bool): int {
    SearchNext(p.st.lines, if up then p.top + 1 else p.top - 1, up, hit)
  }

  function Do(p: Pager, c: Command, squeeze: bool): Pager {
    match c
    case Forward(n) => DoForward(p, n, squeeze)
    case Backward(n) => DoBackward(p, n)
    case ForwardLine(n) => DoForward(p, if n <= 0 then 1 else n, squeeze)
    case BackwardLine(n) => DoBackward(p, if n <= 0 then 1 else n)
    case ResizeForward(count) => DoForward(p.(screen := count), count, squeeze)
    case ResizeBackward(count) => DoBackward(p.(screen := count), count)
    case GotoLine(n) => DoGotoLine(p, n)
    case GotoEnd(n) =>
      if n > 0 then DoGotoLine(p, n)
      else
        var q := Drain(p, squeeze);
        q.(top := Max(0, Total(q) - q.screen))
    case GotoPercent(n) => p.(top := Clamp(Total(p) * Max(0, Min(n, 100)) / 100, Total(p), p.screen))
    case SearchForward(hit) =>
      var found := Found(p, true, hit);
      p.(forward := true, top := if found >= 0 then Clamp(found, Total(p), p.screen) else p.top)
    case SearchBackward(hit) =>
      var found := Found(p, false, hit);
      p.(forward := false, top := if found >= 0 then found else p.top)
    case NextMatch(same, hit) =>
      var found := Found(p, same == p.forward, hit);
      if found >= 0 then p.(top := Clamp(found, Total(p), p.screen)) else p
    case SetMark(ch) => if 0 <= ch < 128 then p.(marks := p.marks[ch := p.top]) else p
    case GotoMark(ch) => if 0 <= ch < 128 && ch in p.marks then p.(top := Max(0, p.marks[ch])) else p
    case ReadMore(k) => ReadSome(p, k, squeeze)
  }

  function Run(p: Pager, cs: seq<Command>, squeeze: bool): Pager
    decreases |cs|
  {
    if cs == [] then p else Run(Do(p, cs[0], squeeze), cs[1..], squeeze)
  }

  // ----- chunk independence -----

  /** What has been read so far, out of `stream`. */
  ghost predicate ReadSoFar(p: Pager, stream: seq<Byte>, done: seq<Byte>, squeeze: bool) {
    && stream == done + Concat(p.input)
    && Holds(p.st, SplitAll(NO_LINES, done, squeeze))
  }

  /** While the pipe is open the store holds what was read; once closed, the lines of the whole stream. */
  ghost predicate StoreOk(p: Pager, stream: seq<Byte>, squeeze: bool) {
    if p.open then exists done :: ReadSoFar(p, stream, done, squeeze)
    else RoomOk(p.st) && p.st.lines == Take(LinesOf(stream, squeeze))
  }

  lemma {:induction false} CloseOk(p: Pager, stream: seq<Byte>, squeeze: bool)
    requires p.open && p.input == [] && StoreOk(p, stream, squeeze)
    ensures StoreOk(CloseEnd(p), stream, squeeze)
  {
    var done :| ReadSoFar(p, stream, done, squeeze);
    assert stream == done;
    FlushHolds(p.st, SplitAll(NO_LINES, done, squeeze));
  }

  lemma {:induction false} NextChunk(p: Pager, stream: seq<Byte>, done: seq<Byte>, squeeze: bool)
    requires p.input != [] && ReadSoFar(p, stream, done, squeeze)
    ensures stream == done + p.input[0] + Concat(p.input[1..])
    ensures SplitAll(NO_LINES, done + p.input[0], squeeze)
         == SplitAll(SplitAll(NO_LINES, done, squeeze), p.input[0], squeeze)
  {
    SplitConcat(NO_LINES, done, p.input[0], squeeze);
  }

  lemma {:induction false} FeedNextOk(p: Pager, stream: seq<Byte>, squeeze: bool)
    requires p.open && p.input != [] && StoreOk(p, stream, squeeze)
    ensures StoreOk(FeedNext(p, squeeze), stream, squeeze)
  {
    var done :| ReadSoFar(p, stream, done, squeeze);
    NextChunk(p, stream, done, squeeze);
    FeedHolds(p.st, SplitAll(NO_LINES, done, squeeze), p.input[0], squeeze);
    assert ReadSoFar(FeedNext(p, squeeze), stream, done + p.input[0], squeeze);
  }

  lemma {:induction false} ReadUntilOk(p: Pager, want: int, stream: seq<Byte>, squeeze: bool)
    requires StoreOk(p, stream, squeeze)
    ensures StoreOk(ReadUntil(p, want, squeeze), stream, squeeze)
    decreases |p.input|
  {
    if p.open && Total(p) < want {
      if p.input == [] { CloseOk(p, stream, squeeze); }
      else {
        FeedNextOk(p, stream, squeeze);
        ReadUntilOk(FeedNext(p, squeeze), want, stream, squeeze);
      }
    }
  }

  lemma {:induction false} DrainOk(p: Pager, stream: seq<Byte>, squeeze: bool)
    requires StoreOk(p, stream, squeeze)
    ensures StoreOk(Drain(p, squeeze), stream, squeeze) && !Drain(p, squeeze).open
    decreases |p.input|
  {
    if p.open {
      if p.input == [] { CloseOk(p, stream, squeeze); }
      else {
        FeedNextOk(p, stream, squeeze);
        DrainOk(FeedNext(p, squeeze), stream, squeeze);
      }
    }
  }

  lemma {:induction false} ReadSomeOk(p: Pager, k: nat, stream: seq<Byte>, squeeze: bool)
    requires StoreOk(p, stream, squeeze)
    ensures StoreOk(ReadSome(p, k, squeeze), stream, squeeze)
    decreases |p.input|
  {
    if p.open && k > 0 {
      if p.input == [] { CloseOk(p, stream, squeeze); }
      else {
        FeedNextOk(p, stream, squeeze);
        ReadSomeOk(FeedNext(p, squeeze), k - 1, stream, squeeze);
      }
    }
  }

  lemma {:induction false} LoadPipeOk(p: Pager, need: nat, stream: seq<Byte>, squeeze: bool)
    requires p.open && StoreOk(p, stream, squeeze)
    ensures StoreOk(LoadPipe(p, need, squeeze).p, stream, squeeze)
    decreases |p.input|
  {
    if Total(p) < need {
      if p.input == [] {
        CloseOk(p, stream, squeeze);
      } else {
        var done :| ReadSoFar(p, stream, done, squeeze);
        var u := SplitAll(NO_LINES, done, squeeze);
        var r := FeedStrict(p.st, p.input[0], squeeze);
        var q := p.(st := r.s, input := p.input[1..]);
        NextChunk(p, stream, done, squeeze);
        FeedStrictHolds(p.st, u, p.input[0], squeeze);
        if r.ok {
          assert ReadSoFar(q, stream, done + p.input[0], squeeze);
          LoadPipeOk(q, need, stream, squeeze);
        } else {
          GivenUp(done + p.input[0], Concat(p.input[1..]), r.s, squeeze);
        }
      }
    }
  }

  /** With the array full, the rest of the stream cannot change its lines. */
  lemma {:induction false} GivenUp(done: seq<Byte>, rest: seq<Byte>, s: Store, squeeze: bool)
    requires RoomOk(s) && s.lines == Take(SplitAll(NO_LINES, done, squeeze).lines)
    requires |SplitAll(NO_LINES, done, squeeze).lines| >= MAX_ALLOC_LINES
    ensures s.lines == Take(LinesOf(done + rest, squeeze))
    ensures |SplitAll(NO_LINES, done, squeeze).lines| <= |LinesOf(done + rest, squeeze)|
  {
    SplitConcat(NO_LINES, done, rest, squeeze);
    SplitGrows(SplitAll(NO_LINES, done, squeeze), rest, squeeze);
  }

  lemma {:induction false} OnlyMoved(p: Pager, q: Pager, stream: seq<Byte>, squeeze: bool)
    requires StoreOk(p, stream, squeeze) && p.st == q.st && p.input == q.input && p.open == q.open
    ensures StoreOk(q, stream, squeeze)
  {
    if p.open {
      var done :| ReadSoFar(p, stream, done, squeeze);
      assert ReadSoFar(q, stream, done, squeeze);
    }
  }

  lemma {:induction false} ForwardStoreOk(p: Pager, n: int, stream: seq<Byte>, squeeze: bool)
    requires StoreOk(p, stream, squeeze)
    ensures StoreOk(DoForward(p, n, squeeze), stream, squeeze)
  {
    var q := ReadUntil(p, p.top + (if n <= 0 then p.screen else n) + p.screen, squeeze);
    ReadUntilOk(p, p.top + (if n <= 0 then p.screen else n) + p.screen, stream, squeeze);
    OnlyMoved(q, DoForward(p, n, squeeze), stream, squeeze);
  }

  lemma {:induction false} EndStoreOk(p: Pager, n: int, stream: seq<Byte>, squeeze: bool)
    requires StoreOk(p, stream, squeeze)
    ensures StoreOk(Do(p, GotoEnd(n), squeeze), stream, squeeze)
  {
    if n > 0 {
      OnlyMoved(p, Do(p, GotoEnd(n), squeeze), stream, squeeze);
    } else {
      DrainOk(p, stream, squeeze);
      OnlyMoved(Drain(p, squeeze), Do(p, GotoEnd(n), squeeze), stream, squeeze);
    }
  }

  lemma {:induction false} ResizeStoreOk(p: Pager, count: nat, stream: seq<Byte>, squeeze: bool)
    requires StoreOk(p, stream, squeeze)
    ensures StoreOk(Do(p, ResizeForward(count), squeeze), stream, squeeze)
  {
    OnlyMoved(p, p.(screen := count), stream, squeeze);
    ForwardStoreOk(p.(screen := count), count, stream, squeeze);
  }

  /** The commands that may read; the others only move, mark or resize. */
  predicate MayRead(c: Command) { c.Forward? || c.ForwardLine? || c.ResizeForward? || c.GotoEnd? || c.ReadMore? }

  /** A command that does not read leaves the store and the input alone. */
  lemma {:induction false} OthersKeepStore(p: Pager, c: Command, squeeze: bool)
    requires !MayRead(c)
    ensures var q := Do(p, c, squeeze); p.st == q.st && p.input == q.input && p.open == q.open
  {}

  lemma {:induction false} DoStoreOk(p: Pager, c: Command, stream: seq<Byte>, squeeze: bool)
    requires StoreOk(p, stream, squeeze)
    ensures StoreOk(Do(p, c, squeeze), stream, squeeze)
  {
    match c
    case Forward(n) => ForwardStoreOk(p, n, stream, squeeze);
    case ForwardLine(n) => ForwardStoreOk(p, if n <= 0 then 1 else n, stream, squeeze);
    case ResizeForward(count) => ResizeStoreOk(p, count, stream, squeeze);
    case GotoEnd(n) => EndStoreOk(p, n, stream, squeeze);
    case ReadMore(k) => ReadSomeOk(p, k, stream, squeeze);
    case _ =>
      OthersKeepStore(p, c, squeeze);
      OnlyMoved(p, Do(p, c, squeeze), stream, squeeze);
  }

  lemma {:induction false} RunStoreOk(p: Pager, cs: seq<Command>, stream: seq<Byte>, squeeze: bool)
    requires StoreOk(p, stream, squeeze)
    ensures StoreOk(Run(p, cs, squeeze), stream, squeeze)
    decreases |cs|
  {
    if cs != [] {
      DoStoreOk(p, cs[0], stream, squeeze);
      RunStoreOk(Do(p, cs[0], squeeze), cs[1..], stream, squeeze);
    }
  }

  lemma {:induction false} StartOk(chunks: seq<seq<Byte>>, screen: nat, squeeze: bool)
    ensures StoreOk(Start(chunks, screen), Concat(chunks), squeeze)
  {
    assert Concat(chunks) == [] + Concat(chunks);
    assert ReadSoFar(Start(chunks, screen), Concat(chunks), [], squeeze);
  }

  /** An open pipe shows a prefix of the lines a finished stream will have. */
  lemma {:induction false} OpenIsPrefix(p: Pager, stream: seq<Byte>, squeeze: bool)
    requires p.open && StoreOk(p, stream, squeeze)
    ensures p.st.lines <= Take(LinesOf(stream, squeeze))
  {
    var done :| ReadSoFar(p, stream, done, squeeze);
    SplitConcat(NO_LINES, done, Concat(p.input), squeeze);
    SplitGrows(SplitAll(NO_LINES, done, squeeze), Concat(p.input), squeeze);
  }

  /**
   Whatever the sizes of the reads and whatever commands are given, the pager
   holds a prefix of the lines of the stream, and all of them (up to 1048576)
   once the pipe has closed; the line array never holds more than its capacity.
   */
  lemma {:induction false} PipeExact(chunks: seq<seq<Byte>>, screen: nat, cs: seq<Command>, squeeze: bool)
    ensures var p := Run(LoadPipe(Start(chunks, screen), screen + 1, squeeze).p, cs, squeeze);
            && RoomOk(p.st) && p.st.lines <= Take(LinesOf(Concat(chunks), squeeze))
            && (!p.open ==> p.st.lines == Take(LinesOf(Concat(chunks), squeeze)))
  {
    var start := Start(chunks, screen);
    StartOk(chunks, screen, squeeze);
    LoadPipeOk(start, screen + 1, Concat(chunks), squeeze);
    var q := LoadPipe(start, screen + 1, squeeze).p;
    RunStoreOk(q, cs, Concat(chunks), squeeze);
    var p := Run(q, cs, squeeze);
    if p.open { OpenIsPrefix(p, Concat(chunks), squeeze); }
  }

  /** The command `G` always reaches the end of the stream. */
  lemma {:induction false} EndClosesPipe(p: Pager, stream: seq<Byte>, squeeze: bool)
    requires StoreOk(p, stream, squeeze)
    ensures var q := Do(p, GotoEnd(0), squeeze); !q.open && q.st.lines == Take(LinesOf(stream, squeeze))
  {
    DrainOk(p, stream, squeeze);
  }

  lemma {:induction false} LoadFdHolds(s: Store, done: seq<Byte>, chunks: seq<seq<Byte>>, squeeze: bool)
    requires Holds(s, SplitAll(NO_LINES, done, squeeze))
    requires |SplitAll(NO_LINES, done, squeeze).lines| <= MAX_ALLOC_LINES
    ensures var r, ls := LoadFd(s, chunks, squeeze), LinesOf(done + Concat(chunks), squeeze);
            r.s.lines == Take(ls) && (r.ok <==> |ls| <= MAX_ALLOC_LINES)
    decreases |chunks|
  {
    var u := SplitAll(NO_LINES, done, squeeze);
    if chunks == [] {
      assert done + Concat(chunks) == done;
      FlushHolds(s, u);
      FullExactly(s);
    } else {
      var c, rest := chunks[0], Concat(chunks[1..]);
      assert done + Concat(chunks) == done + c + rest;
      SplitConcat(NO_LINES, done, c, squeeze);
      FeedStrictHolds(s, u, c, squeeze);
      var r := FeedStrict(s, c, squeeze);
      if r.ok {
        LoadFdHolds(r.s, done + c, chunks[1..], squeeze);
      } else {
        GivenUp(done + c, rest, r.s, squeeze);
      }
    }
  }

  /** A file loads the lines of its bytes, and fails exactly when there are more than 1048576. */
  lemma {:induction false} FileExact(chunks: seq<seq<Byte>>, squeeze: bool)
    ensures var r, ls := LoadFd(EMPTY_STORE, chunks, squeeze), LinesOf(Concat(chunks), squeeze);
            r.s.lines == Take(ls) && (r.ok <==> |ls| <= MAX_ALLOC_LINES)
  {
    assert Concat(chunks) == [] + Concat(chunks);
    LoadFdHolds(EMPTY_STORE, [], chunks, squeeze);
  }

  /** A pipe that has closed and a file give the same lines, however either was read. */
  lemma {:induction false} PipeIsFile(
    chunks: seq<seq<Byte>>, pieces: seq<seq<Byte>>, screen: nat, cs: seq<Command>, squeeze: bool)
    requires Concat(chunks) == Concat(pieces)
    ensures var p := Run(LoadPipe(Start(chunks, screen), screen + 1, squeeze).p, cs, squeeze);
            !p.open ==> p.st.lines == LoadFd(EMPTY_STORE, pieces, squeeze).s.lines
  {
    PipeExact(chunks, screen, cs, squeeze);
    FileExact(pieces, squeeze);
  }

  // ----- the viewport -----

  /** The window is full, or it starts at the first line. */
  predicate InView(p: Pager) { 0 <= p.top <= Max(0, Total(p) - p.screen) }

  predicate InText(p: Pager) {
    0 <= p.top <= Total(p) && forall ch :: ch in p.marks ==> 0 <= p.marks[ch] <= Total(p)
  }

  predicate MarksInView(p: Pager) {
    forall ch :: ch in p.marks ==> 0 <= p.marks[ch] <= Max(0, Total(p) - p.screen)
  }

  /** Reading changes nothing but the store, which grows. */
  predicate Grew(p: Pager, q: Pager) {
    q == p.(st := q.st, input := q.input, open := q.open) && Total(p) <= Total(q)
  }

  lemma {:induction false} FeedNextGrew(p: Pager, squeeze: bool)
    requires p.input != []
    ensures Grew(p, FeedNext(p, squeeze))
  {
    FeedGrows(p.st, p.input[0], squeeze);
  }

  lemma {:induction false} ReadUntilGrew(p: Pager, want: int, squeeze: bool)
    ensures Grew(p, ReadUntil(p, want, squeeze))
    decreases |p.input|
  {
    if p.open && Total(p) < want && p.input != [] {
      FeedNextGrew(p, squeeze);
      ReadUntilGrew(FeedNext(p, squeeze), want, squeeze);
    }
  }

  lemma {:induction false} DrainGrew(p: Pager, squeeze: bool)
    ensures Grew(p, Drain(p, squeeze))
    decreases |p.input|
  {
    if p.open && p.input != [] {
      FeedNextGrew(p, squeeze);
      DrainGrew(FeedNext(p, squeeze), squeeze);
    }
  }

  lemma {:induction false} ReadSomeGrew(p: Pager, k: nat, squeeze: bool)
    ensures Grew(p, ReadSome(p, k, squeeze))
    decreases |p.input|
  {
    if p.open && k > 0 && p.input != [] {
      FeedNextGrew(p, squeeze);
      ReadSomeGrew(FeedNext(p, squeeze), k - 1, squeeze);
    }
  }

  lemma {:induction false} ForwardGrew(p: Pager, n: int, squeeze: bool)
    ensures Grew(p.(top := DoForward(p, n, squeeze).top), DoForward(p, n, squeeze))
    ensures InView(DoForward(p, n, squeeze))
  {
    ReadUntilGrew(p, p.top + (if n <= 0 then p.screen else n) + p.screen, squeeze);
  }

  /** The window height a command sets. */
  function NewScreen(screen: nat, c: Command): nat {
    match c
    case ResizeForward(count) => count
    case ResizeBackward(count) => count
    case _ => screen
  }

  function NewMarks(p: Pager, c: Command): map<int, int> {
    if c.SetMark? && 0 <= c.ch < 128 then p.marks[c.ch := p.top] else p.marks
  }

  lemma {:induction false} ReadingGrew(p: Pager, c: Command, squeeze: bool)
    requires MayRead(c)
    ensures var q := Do(p, c, squeeze);
            Total(p) <= Total(q) && q.screen == NewScreen(p.screen, c) && q.marks == p.marks
  {
    match c
    case Forward(n) => ForwardGrew(p, n, squeeze);
    case ForwardLine(n) => ForwardGrew(p, if n <= 0 then 1 else n, squeeze);
    case ResizeForward(count) => ForwardGrew(p.(screen := count), count, squeeze);
    case GotoEnd(n) => DrainGrew(p, squeeze);
    case ReadMore(k) => ReadSomeGrew(p, k, squeeze);
  }

  /** What every command does to the store, the window height and the marks. */
  lemma {:induction false} DoGrew(p: Pager, c: Command, squeeze: bool)
    ensures var q := Do(p, c, squeeze);
            Total(p) <= Total(q) && q.screen == NewScreen(p.screen, c) && q.marks == NewMarks(p, c)
  {
    if MayRead(c) { ReadingGrew(p, c, squeeze); }
  }

  /** A jump to a mark that lies below the last full window. */
  predicate JumpsBelow(p: Pager, c: Command) {
    c.GotoMark? && 0 <= c.ch < 128 && c.ch in p.marks && p.marks[c.ch] > Max(0, Total(p) - p.screen)
  }

  lemma {:induction false} ReadingInView(p: Pager, c: Command, squeeze: bool)
    requires MayRead(c) && (c.ReadMore? ==> InView(p))
    ensures InView(Do(p, c, squeeze))
  {
    match c
    case Forward(n) => ForwardGrew(p, n, squeeze);
    case ForwardLine(n) => ForwardGrew(p, if n <= 0 then 1 else n, squeeze);
    case ResizeForward(count) => ForwardGrew(p.(screen := count), count, squeeze);
    case GotoEnd(n) =>
    case ReadMore(k) => ReadSomeGrew(p, k, squeeze);
  }

  /** A command keeps the window full exactly when it is not such a jump. */
  lemma {:induction false} DoInView(p: Pager, c: Command, squeeze: bool)
    requires InView(p)
    ensures InView(Do(p, c, squeeze)) <==> !JumpsBelow(p, c)
  {
    if MayRead(c) { ReadingInView(p, c, squeeze); }
  }

  lemma {:induction false} TopInText(p: Pager, c: Command, squeeze: bool)
    requires 0 <= p.top <= Total(p)
    requires c.GotoMark? && 0 <= c.ch < 128 && c.ch in p.marks ==> 0 <= p.marks[c.ch] <= Total(p)
    ensures var q := Do(p, c, squeeze); 0 <= q.top <= Total(q)
  {
    if c.ReadMore? {
      ReadSomeGrew(p, c.k, squeeze);
    } else if MayRead(c) {
      ReadingInView(p, c, squeeze);
    }
  }

  lemma {:induction false} DoInText(p: Pager, c: Command, squeeze: bool)
    requires InText(p)
    ensures InText(Do(p, c, squeeze))
  {
    DoGrew(p, c, squeeze);
    TopInText(p, c, squeeze);
  }

  /** Every run: the first visible line and every mark stay inside the text. */
  lemma {:induction false} RunInText(p: Pager, cs: seq<Command>, squeeze: bool)
    requires InText(p)
    ensures InText(Run(p, cs, squeeze))
    decreases |cs|
  {
    if cs != [] {
      DoInText(p, cs[0], squeeze);
      RunInText(Do(p, cs[0], squeeze), cs[1..], squeeze);
    }
  }

  /** In every state of the run the window is full or starts at the first line. */
  predicate AlwaysInView(p: Pager, cs: seq<Command>, squeeze: bool)
    decreases |cs|
  {
    InView(p) && (cs == [] || AlwaysInView(Do(p, cs[0], squeeze), cs[1..], squeeze))
  }

  predicate NeverJumpsBelow(p: Pager, cs: seq<Command>, squeeze: bool)
    decreases |cs|
  {
    cs == [] || (!JumpsBelow(p, cs[0]) && NeverJumpsBelow(Do(p, cs[0], squeeze), cs[1..], squeeze))
  }

  lemma {:induction false} RunInView(p: Pager, cs: seq<Command>, squeeze: bool)
    requires InView(p)
    ensures AlwaysInView(p, cs, squeeze) <==> NeverJumpsBelow(p, cs, squeeze)
    decreases |cs|
  {
    if cs != [] {
      DoInView(p, cs[0], squeeze);
      if !JumpsBelow(p, cs[0]) { RunInView(Do(p, cs[0], squeeze), cs[1..], squeeze); }
    }
  }

  /** No command makes the window taller. */
  predicate NoTaller(screen: nat, cs: seq<Command>)
    decreases |cs|
  {
    cs == [] || (NewScreen(screen, cs[0]) <= screen && NoTaller(NewScreen(screen, cs[0]), cs[1..]))
  }

  predicate NoMarkJumps(cs: seq<Command>) { forall i :: 0 <= i < |cs| ==> !cs[i].GotoMark? }

  /** Without growing windows, or without mark jumps, the window never leaves the text. */
  lemma {:induction false} ViewKept(p: Pager, cs: seq<Command>, squeeze: bool)
    requires InView(p) && ((MarksInView(p) && NoTaller(p.screen, cs)) || NoMarkJumps(cs))
    ensures AlwaysInView(p, cs, squeeze)
    decreases |cs|
  {
    if cs != [] {
      DoInView(p, cs[0], squeeze);
      DoGrew(p, cs[0], squeeze);
      ViewKept(Do(p, cs[0], squeeze), cs[1..], squeeze);
    }
  }

  /** Moving forward goes exactly as far as the text allows; moving back undoes it exactly when it went all the way. */
  lemma {:induction false} ForwardBack(p: Pager, n: int, squeeze: bool)
    requires InView(p) && n > 0
    ensures var q := Do(p, Forward(n), squeeze);
            var last := Max(0, Total(q) - q.screen);
            && q.top == Min(p.top + n, last)
            && (Do(q, Backward(n), squeeze).top == p.top <==> p.top + n <= last || p.top == 0)
  {
    ForwardGrew(p, n, squeeze);
  }

  predicate Leaves(c: Command, ch: int) { c.SetMark? ==> c.ch != ch }

  lemma {:induction false} RunKeepsMark(p: Pager, ch: int, cs: seq<Command>, squeeze: bool)
    requires ch in p.marks && forall i :: 0 <= i < |cs| ==> Leaves(cs[i], ch)
    ensures var q := Run(p, cs, squeeze); ch in q.marks && q.marks[ch] == p.marks[ch]
    decreases |cs|
  {
    if cs != [] {
      assert Leaves(cs[0], ch);
      DoGrew(p, cs[0], squeeze);
      RunKeepsMark(Do(p, cs[0], squeeze), ch, cs[1..], squeeze);
    }
  }

  /** A mark is found again after any run that does not set it anew. */
  lemma {:induction false} MarkReturns(p: Pager, ch: int, cs: seq<Command>, squeeze: bool)
    requires 0 <= ch < 128 && p.top >= 0 && forall i :: 0 <= i < |cs| ==> Leaves(cs[i], ch)
    ensures Do(Run(Do(p, SetMark(ch), squeeze), cs, squeeze), GotoMark(ch), squeeze).top == p.top
  {
    RunKeepsMark(Do(p, SetMark(ch), squeeze), ch, cs, squeeze);
  }

  lemma {:induction false} LoadPipeStays(p: Pager, need: nat, squeeze: bool)
    ensures var q := LoadPipe(p, need, squeeze).p;
            q.top == p.top && q.screen == p.screen && q.marks == p.marks
    decreases |p.input|
  {
    if Total(p) < need && p.input != [] {
      var r := FeedStrict(p.st, p.input[0], squeeze);
      if r.ok { LoadPipeStays(p.(st := r.s, input := p.input[1..]), need, squeeze); }
    }
  }

  /** From the start of the program on, for every input and every run whose window never grows or jumps to no mark. */
  lemma {:induction false} SessionInView(chunks: seq<seq<Byte>>, screen: nat, cs: seq<Command>, squeeze: bool)
    requires NoTaller(screen, cs) || NoMarkJumps(cs)
    ensures AlwaysInView(LoadPipe(Start(chunks, screen), screen + 1, squeeze).p, cs, squeeze)
  {
    LoadPipeStays(Start(chunks, screen), screen + 1, squeeze);
    ViewKept(LoadPipe(Start(chunks, screen), screen + 1, squeeze).p, cs, squeeze);
  }

  /** Two empty lines on a one-line screen, as loaded. */
  lemma {:induction false} TwoEmptyLines(chunk: seq<Byte>, p: Pager)
    requires chunk == [NEWLINE, NEWLINE] && p == LoadPipe(Start([chunk], 1), 2, false).p
    ensures p == Pager(Store([[], []], FIRST_CAPACITY, [], true), [], true, 0, 1, map[], true)
  {
    var one := FeedByte(EMPTY_STORE, NEWLINE, false);
    var two := FeedByte(one, NEWLINE, false);
    assert chunk[1..] == [NEWLINE] && chunk[1..][1..] == [];
    assert FeedStrict(one, chunk[1..], false) == Fed(two, true);
    assert FeedStrict(EMPTY_STORE, chunk, false) == Fed(two, true);
    assert LoadPipe(Start([chunk], 1).(st := two, input := []), 2, false).ok;
  }

  /** Step to the last line, mark it, grow the window, jump back: the window hangs over the end. */
  lemma {:induction false} GrownWindowLosesView(chunk: seq<Byte>)
    requires chunk == [NEWLINE, NEWLINE]
    ensures !AlwaysInView(LoadPipe(Start([chunk], 1), 2, false).p,
                          [Forward(1), SetMark(97), ResizeBackward(2), GotoMark(97)], false)
  {
    var cs := [Forward(1), SetMark(97), ResizeBackward(2), GotoMark(97)];
    var p := LoadPipe(Start([chunk], 1), 2, false).p;
    TwoEmptyLines(chunk, p);
    var p1 := Do(p, cs[0], false);
    var p2 := Do(p1, cs[1], false);
    var p3 := Do(p2, cs[2], false);
    assert p1 == p.(top := 1) && p2.marks == map[97 := 1] && p3.screen == 2 && JumpsBelow(p3, cs[3]);
    assert cs[1..][1..] == cs[2..] && cs[2..][1..] == cs[3..];
    assert !NeverJumpsBelow(p3, cs[3..], false);
    assert !NeverJumpsBelow(p2, cs[2..], false);
    assert !NeverJumpsBelow(p1, cs[1..], false);
    RunInView(p, cs, false);
  }
}
