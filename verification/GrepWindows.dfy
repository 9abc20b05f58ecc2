/** Which lines the context printing of user/grep.c shows, and in which order. */
module GrepWindows {
  import opened Bytes
  import opened GrepContext

  // ----- what is printed -----

  /** The line numbers printed, in order. */
  function Numbers(out: seq<Event>): seq<nat> {
    if out == [] then []
    else Numbers(out[..|out| - 1]) + (if out[|out| - 1].Line? then [out[|out| - 1].no] else [])
  }

  function Separators(out: seq<Event>): nat {
    if out == [] then 0
    else Separators(out[..|out| - 1]) + (if out[|out| - 1].Separator? then 1 else 0)
  }

  predicate Increasing(ns: seq<nat>) {
    forall i, j :: 0 <= i < j < |ns| ==> ns[i] < ns[j]
  }

  /** Line `m`, counted from 1, is selected. */
  predicate Selected(sel: seq<bool>, m: int) {
    1 <= m <= |sel| && sel[m - 1]
  }

  /** Line `l` lies in the window of a selected line among the first `k`. */
  ghost predicate InWindow(sel: seq<bool>, k: nat, l: nat, A: nat, B: nat)
    requires k <= |sel|
  {
    exists m :: m <= k && Selected(sel, m) && m - B <= l <= m + A
  }

  ghost predicate AnySelected(sel: seq<bool>, k: nat)
    requires k <= |sel|
  {
    exists m :: m <= k && Selected(sel, m)
  }

  /** Lines numbered below `A` in front of the first selected line are suppressed. */
  ghost predicate Suppressed(sel: seq<bool>, l: nat, A: nat)
    requires l <= |sel|
  {
    l < A && !AnySelected(sel, l)
  }

  ghost predicate Shown(sel: seq<bool>, k: nat, l: nat, A: nat, B: nat)
    requires k <= |sel|
  {
    1 <= l <= k && InWindow(sel, k, l, A, B) && !Suppressed(sel, l, A)
  }

  /** The last selected line among the first `k`, or -1. */
  function LastSelected(sel: seq<bool>, k: nat): (r: int)
    requires k <= |sel|
    ensures r == -1 || (r <= k && Selected(sel, r))
    ensures forall m :: m <= k && Selected(sel, m) ==> m <= r
  {
    if k == 0 then -1 else if sel[k - 1] then k else LastSelected(sel, k - 1)
  }

  /** How many lines in front of line `k + 1` wait in the buffer, were it unlimited. */
  function Waiting(sel: seq<bool>, k: nat, A: nat): nat
    requires k <= |sel|
  {
    var last := LastSelected(sel, k);
    if last == -1 then k else Max(0, k - (last + A))
  }

  /** The ring holds the last `count` waiting lines in order. */
  ghost predicate RingOk(s: State, k: nat) {
    && s.count <= MAX_CTX && s.count <= s.idx && s.count <= k
    && forall i :: s.idx - s.count <= i < s.idx ==> Slot(s.ring, i) == k - (s.idx - 1 - i)
  }

  /** Everything the loop knows after `k` lines. */
  ghost predicate Inv(s: State, sel: seq<bool>, k: nat, A: nat, B: nat)
    requires k <= |sel|
  {
    && s.last == LastSelected(sel, k)
    && s.after == (if s.last == -1 then 0 else Max(0, s.last + A - k))
    && s.count == Min(B, Waiting(sel, k, A)) && RingOk(s, k)
  }

  lemma {:induction false} RingAdd(s: State, k: nat, B: nat)
    requires 0 < B <= MAX_CTX && s.count <= B && RingOk(s, k)
    ensures RingOk(Step(s.(after := 0), k + 1, false, 0, B, false), k + 1)
  {
    var r := Step(s.(after := 0), k + 1, false, 0, B, false);
    forall i | r.idx - r.count <= i < r.idx ensures Slot(r.ring, i) == k + 1 - (r.idx - 1 - i) {
      if i < s.idx {
        assert i % MAX_CTX != s.idx % MAX_CTX by { SlotsDiffer(i, s.idx); }
        assert Slot(s.ring, i) == k - (s.idx - 1 - i);
      }
    }
  }

  lemma {:induction false} SlotsDiffer(i: nat, j: nat)
    requires i < j < i + MAX_CTX
    ensures i % MAX_CTX != j % MAX_CTX
  {}

  lemma {:induction false} InvStep(s: State, sel: seq<bool>, k: nat, A: nat, B: nat, separate: bool)
    requires 1 <= k <= |sel| && B <= MAX_CTX && Inv(s, sel, k - 1, A, B)
    ensures Inv(Step(s, k, sel[k - 1], A, B, separate), sel, k, A, B)
  {
    if !sel[k - 1] && s.after == 0 && B > 0 { RingAdd(s, k - 1, B); }
  }

  lemma {:induction false} RunInv(ring: Ring, sel: seq<bool>, k: nat, A: nat, B: nat, separate: bool)
    requires k <= |sel| && B <= MAX_CTX
    ensures Inv(Run(ring, sel, k, A, B, separate), sel, k, A, B)
  {
    if k > 0 {
      RunInv(ring, sel, k - 1, A, B, separate);
      InvStep(Run(ring, sel, k - 1, A, B, separate), sel, k, A, B, separate);
    }
  }

  // ----- sequences of numbers -----

  /** The numbers from `lo` to `hi`. */
  function Span(lo: nat, hi: int): (r: seq<nat>)
    ensures |r| == Max(0, hi + 1 - lo)
    ensures forall j :: 0 <= j < |r| ==> r[j] == lo + j
  {
    seq(Max(0, hi + 1 - lo), j requires 0 <= j => lo + j)
  }

  lemma {:induction false} NumbersOne(e: Event)
    ensures Numbers([e]) == (if e.Line? then [e.no] else []) && Separators([e]) == (if e.Line? then 0 else 1)
    ensures Numbers([]) == [] && Separators([]) == 0
  {
    assert [e][..0] == [];
  }

  lemma {:induction false} NumbersAppend(a: seq<Event>, b: seq<Event>)
    ensures Numbers(a + b) == Numbers(a) + Numbers(b)
    ensures Separators(a + b) == Separators(a) + Separators(b)
  {
    if b == [] {
      assert a + b == a;
    } else {
      var k := |b| - 1;
      assert (a + b)[..|a + b| - 1] == a + b[..k] && (a + b)[|a + b| - 1] == b[k];
      NumbersAppend(a, b[..k]);
    }
  }

  /** The context lines from `lo` to `hi`. */
  function Lines(lo: nat, hi: int): (r: seq<Event>)
    ensures |r| == Max(0, hi + 1 - lo)
    ensures forall j :: 0 <= j < |r| ==> r[j] == Line(lo + j, false)
  {
    seq(Max(0, hi + 1 - lo), j requires 0 <= j => Line(lo + j, false))
  }

  lemma {:induction false} LinesNumbers(lo: nat, hi: int)
    ensures Numbers(Lines(lo, hi)) == Span(lo, hi) && Separators(Lines(lo, hi)) == 0
    decreases hi - lo
  {
    var ls := Lines(lo, hi);
    if lo <= hi {
      assert ls[..|ls| - 1] == Lines(lo, hi - 1);
      LinesNumbers(lo, hi - 1);
      assert Span(lo, hi) == Span(lo, hi - 1) + [hi];
    }
  }

  lemma {:induction false} LinesCons(lo: nat, hi: nat)
    requires lo <= hi
    ensures Lines(lo, hi) == [Line(lo, false)] + Lines(lo + 1, hi)
  {}

  lemma {:induction false} BufferedFirst(all: seq<Event>, rest: seq<Event>, no: nat, bound: int, k: nat)
    requires no <= k && bound >= -1 && rest == Lines(Max(bound + 1, no + 1), k)
    requires [] + all == (if no > bound then [] + [Line(no, false)] else []) + rest
    ensures all == Lines(Max(bound + 1, no), k)
  {
    assert [] + all == all && [] + rest == rest && [] + [Line(no, false)] == [Line(no, false)];
    if no > bound { LinesCons(no, k); }
  }

  /** The buffered lines are printed in order, those up to `bound` left out. */
  lemma {:induction false} BufferedLines(s: State, k: nat, i: nat, bound: int)
    requires RingOk(s, k) && s.idx - s.count <= i <= s.idx && bound >= -1
    ensures Buffered(s.ring, i, s.idx, bound) == Lines(Max(bound + 1, k + 1 - (s.idx - i)), k)
    decreases s.idx - i
  {
    if i < s.idx {
      var no := Slot(s.ring, i);
      var rest := Buffered(s.ring, i + 1, s.idx, bound);
      assert no == k - (s.idx - 1 - i);
      BufferedLines(s, k, i + 1, bound);
      BufferedStep([], s.ring, i, s.idx, bound, no);
      BufferedFirst(Buffered(s.ring, i, s.idx, bound), rest, no, bound, k);
    }
  }

  // ----- windows, line by line -----

  lemma {:induction false} WindowBound(sel: seq<bool>, k: nat, l: nat, A: nat, B: nat)
    requires k <= |sel| && InWindow(sel, k, l, A, B)
    ensures LastSelected(sel, k) != -1 && l <= LastSelected(sel, k) + A
  {}

  /** A line that is not selected is shown only as trailing context of the last selected one. */
  lemma {:induction false} ShownAfter(sel: seq<bool>, k: nat, l: nat, A: nat, B: nat)
    requires 1 <= k <= |sel| && !sel[k - 1]
    ensures var last := LastSelected(sel, k - 1);
            Shown(sel, k, l, A, B) <==> Shown(sel, k - 1, l, A, B) || (l == k && last != -1 && k <= last + A)
  {
    var last := LastSelected(sel, k - 1);
    assert InWindow(sel, k, l, A, B) <==> InWindow(sel, k - 1, l, A, B);
    if l == k {
      if InWindow(sel, k, k, A, B) { WindowBound(sel, k - 1, k, A, B); }
      if last != -1 && k <= last + A {
        assert Selected(sel, last);
        assert InWindow(sel, k, k, A, B);
      }
    }
  }

  /** A selected line adds itself and its waiting lines in front of it. */
  lemma {:induction false} ShownBefore(sel: seq<bool>, k: nat, l: nat, A: nat, B: nat)
    requires 1 <= k <= |sel| && sel[k - 1]
    ensures var last := LastSelected(sel, k - 1);
            var lo := Max(last + A + 1, k - Min(B, Waiting(sel, k - 1, A)));
            Shown(sel, k, l, A, B) <==> Shown(sel, k - 1, l, A, B) || lo <= l <= k - 1 || l == k
  {
    var last := LastSelected(sel, k - 1);
    assert Selected(sel, k);
    assert InWindow(sel, k, l, A, B) <==> InWindow(sel, k - 1, l, A, B) || k - B <= l <= k + A;
    if 1 <= l < k && k - B <= l {
      if last == -1 {
        assert !InWindow(sel, k - 1, l, A, B);
        assert !AnySelected(sel, l);
      } else {
        assert Selected(sel, last);
        if l <= last + A { assert InWindow(sel, k - 1, l, A, B); }
        else { assert AnySelected(sel, l); }
      }
    }
  }

  /** The numbers `ns` are the shown lines among the first `k`, in order. */
  ghost predicate ShownInOrder(ns: seq<nat>, sel: seq<bool>, k: nat, A: nat, B: nat)
    requires k <= |sel|
  {
    Increasing(ns) && forall l: nat :: l in ns <==> Shown(sel, k, l, A, B)
  }

  lemma {:induction false} GroupParts(sep: seq<Event>, before: seq<Event>, k: nat, span: seq<nat>)
    requires Numbers(sep) == [] && Numbers(before) == span && Separators(before) == 0
    ensures Numbers(sep + before + [Line(k, true)]) == span + [k]
    ensures Separators(sep + before + [Line(k, true)]) == Separators(sep)
  {
    NumbersOne(Line(k, true));
    NumbersAppend(sep, before);
    NumbersAppend(sep + before, [Line(k, true)]);
  }

  lemma {:induction false} BeforeLines(s: State, k: nat, A: nat, B: nat)
    requires k >= 1 && RingOk(s, k - 1) && s.last >= -1 && s.count <= B
    ensures Before(s.ring, s.idx, s.count, s.last, A, B) == Lines(Max(s.last + A + 1, k - s.count), k - 1)
  {
    if B > 0 { BufferedLines(s, k - 1, s.idx - s.count, s.last + A); }
  }

  lemma {:induction false} BeforeNumbers(s: State, k: nat, A: nat, B: nat)
    requires k >= 1 && RingOk(s, k - 1) && s.last >= -1 && s.count <= B
    ensures Numbers(Before(s.ring, s.idx, s.count, s.last, A, B)) == Span(Max(s.last + A + 1, k - s.count), k - 1)
    ensures Separators(Before(s.ring, s.idx, s.count, s.last, A, B)) == 0
  {
    BeforeLines(s, k, A, B);
    LinesNumbers(Max(s.last + A + 1, k - s.count), k - 1);
  }

  lemma {:induction false} GapNumbers(last: int, k: nat, A: nat, B: nat, separate: bool)
    ensures Numbers(Gap(last, k, A, B, separate)) == []
    ensures Separators(Gap(last, k, A, B, separate)) == |Gap(last, k, A, B, separate)|
  {
    NumbersOne(Separator);
  }

  lemma {:induction false} GroupNumbers(s: State, k: nat, A: nat, B: nat, separate: bool)
    requires k >= 1 && RingOk(s, k - 1) && s.last >= -1 && s.count <= B
    ensures Numbers(Group(s.ring, s.idx, s.count, s.last, k, A, B, separate))
         == Span(Max(s.last + A + 1, k - s.count), k - 1) + [k]
    ensures Separators(Group(s.ring, s.idx, s.count, s.last, k, A, B, separate)) == |Gap(s.last, k, A, B, separate)|
  {
    BeforeNumbers(s, k, A, B);
    GapNumbers(s.last, k, A, B, separate);
    GroupParts(Gap(s.last, k, A, B, separate), Before(s.ring, s.idx, s.count, s.last, A, B), k,
               Span(Max(s.last + A + 1, k - s.count), k - 1));
  }

  lemma {:induction false} IncreasingAppend(a: seq<nat>, lo: nat, k: nat)
    requires Increasing(a) && forall l :: l in a ==> l < lo && l < k
    ensures Increasing(a + Span(lo, k - 1) + [k])
  {
    assert forall i :: 0 <= i < |a| ==> a[i] in a;
  }

  lemma {:induction false} AppendGroup(ns: seq<nat>, ns': seq<nat>, lo: nat, sel: seq<bool>, k: nat, A: nat, B: nat)
    requires 1 <= k <= |sel| && sel[k - 1] && ShownInOrder(ns, sel, k - 1, A, B)
    requires lo == Max(LastSelected(sel, k - 1) + A + 1, k - Min(B, Waiting(sel, k - 1, A)))
    requires ns' == ns + (Span(lo, k - 1) + [k])
    ensures ShownInOrder(ns', sel, k, A, B)
  {
    assert ns' == ns + Span(lo, k - 1) + [k];
    forall l: nat | l in ns ensures l < lo && l < k { WindowBound(sel, k - 1, l, A, B); }
    IncreasingAppend(ns, lo, k);
    forall l: nat ensures l in ns + Span(lo, k - 1) + [k] <==> Shown(sel, k, l, A, B) {
      ShownBefore(sel, k, l, A, B);
      InAppend(ns, lo, k, l);
    }
  }

  lemma {:induction false} OutSelected(s: State, sel: seq<bool>, k: nat, A: nat, B: nat, separate: bool)
    requires 1 <= k <= |sel| && sel[k - 1] && B <= MAX_CTX
    requires Inv(s, sel, k - 1, A, B) && ShownInOrder(Numbers(s.out), sel, k - 1, A, B)
    ensures ShownInOrder(Numbers(Step(s, k, true, A, B, separate).out), sel, k, A, B)
  {
    InvStart(s, sel, k, A, B);
    StepNumbers(s, k, A, B, separate);
    AppendGroup(Numbers(s.out), Numbers(Step(s, k, true, A, B, separate).out), Max(s.last + A + 1, k - s.count),
                sel, k, A, B);
  }

  /** Where the group in front of line `k` starts, by the program's counters and by the selection. */
  lemma {:induction false} InvStart(s: State, sel: seq<bool>, k: nat, A: nat, B: nat)
    requires 1 <= k <= |sel| && B <= MAX_CTX && Inv(s, sel, k - 1, A, B)
    ensures RingOk(s, k - 1) && s.last >= -1 && s.count <= B
    ensures Max(s.last + A + 1, k - s.count)
         == Max(LastSelected(sel, k - 1) + A + 1, k - Min(B, Waiting(sel, k - 1, A)))
  {}

  lemma {:induction false} StepNumbers(s: State, k: nat, A: nat, B: nat, separate: bool)
    requires k >= 1 && RingOk(s, k - 1) && s.last >= -1 && s.count <= B
    ensures var out := Step(s, k, true, A, B, separate).out;
            && Numbers(out) == Numbers(s.out) + (Span(Max(s.last + A + 1, k - s.count), k - 1) + [k])
            && Separators(out) == Separators(s.out) + |Gap(s.last, k, A, B, separate)|
  {
    GroupNumbers(s, k, A, B, separate);
    NumbersAppend(s.out, Group(s.ring, s.idx, s.count, s.last, k, A, B, separate));
  }

  lemma {:induction false} InAppend(a: seq<nat>, lo: nat, k: nat, l: nat)
    ensures l in a + Span(lo, k - 1) + [k] <==> l in a || lo <= l <= k - 1 || l == k
  {
    if lo <= l <= k - 1 { assert Span(lo, k - 1)[l - lo] == l; }
  }

  lemma {:induction false} AppendOther(
    ns: seq<nat>, ns': seq<nat>, trailing: bool, sel: seq<bool>, k: nat, A: nat, B: nat)
    requires 1 <= k <= |sel| && !sel[k - 1] && ShownInOrder(ns, sel, k - 1, A, B)
    requires trailing <==> LastSelected(sel, k - 1) != -1 && k <= LastSelected(sel, k - 1) + A
    requires ns' == if trailing then ns + [k] else ns
    ensures ShownInOrder(ns', sel, k, A, B)
  {
    forall l: nat ensures l in ns' <==> Shown(sel, k, l, A, B) { ShownAfter(sel, k, l, A, B); }
    if trailing {
      assert ns' == ns + Span(k, k - 1) + [k];
      IncreasingAppend(ns, k, k);
    }
  }

  lemma {:induction false} OtherNumbers(s: State, k: nat, A: nat, B: nat, separate: bool)
    requires s.count <= s.idx
    ensures var out := Step(s, k, false, A, B, separate).out;
            && Numbers(out) == (if s.after > 0 then Numbers(s.out) + [k] else Numbers(s.out))
            && Separators(out) == Separators(s.out)
  {
    NumbersOne(Line(k, false));
    NumbersAppend(s.out, [Line(k, false)]);
  }

  lemma {:induction false} TrailingCount(s: State, sel: seq<bool>, k: nat, A: nat, B: nat)
    requires 1 <= k <= |sel| && Inv(s, sel, k - 1, A, B)
    ensures s.count <= s.idx
    ensures s.after > 0 <==> LastSelected(sel, k - 1) != -1 && k <= LastSelected(sel, k - 1) + A
  {}

  lemma {:induction false} OutOther(s: State, sel: seq<bool>, k: nat, A: nat, B: nat, separate: bool)
    requires 1 <= k <= |sel| && !sel[k - 1]
    requires Inv(s, sel, k - 1, A, B) && ShownInOrder(Numbers(s.out), sel, k - 1, A, B)
    ensures ShownInOrder(Numbers(Step(s, k, false, A, B, separate).out), sel, k, A, B)
  {
    TrailingCount(s, sel, k, A, B);
    OtherNumbers(s, k, A, B, separate);
    AppendOther(Numbers(s.out), Numbers(Step(s, k, false, A, B, separate).out), s.after > 0, sel, k, A, B);
  }

  /**
   Every selection and every `-A`, with `-B` at most 1024: line numbers come out
   in strictly increasing order, and exactly the windows of the selected lines
   are printed, except lines numbered below `A` in front of the first one.
   */
  lemma {:induction false} ContextExact(ring: Ring, sel: seq<bool>, k: nat, A: nat, B: nat, separate: bool)
    requires k <= |sel| && B <= MAX_CTX
    ensures ShownInOrder(Numbers(Run(ring, sel, k, A, B, separate).out), sel, k, A, B)
  {
    if k > 0 {
      var s := Run(ring, sel, k - 1, A, B, separate);
      ContextExact(ring, sel, k - 1, A, B, separate);
      RunInv(ring, sel, k - 1, A, B, separate);
      if sel[k - 1] { OutSelected(s, sel, k, A, B, separate); } else { OutOther(s, sel, k, A, B, separate); }
    }
  }

  // ----- exactly when the windows are printed -----

  ghost predicate PrintsWindows(ring: Ring, sel: seq<bool>, A: nat, B: nat, separate: bool) {
    forall l: nat :: l in Numbers(Run(ring, sel, |sel|, A, B, separate).out)
                     <==> 1 <= l <= |sel| && InWindow(sel, |sel|, l, A, B)
  }

  ghost predicate AlwaysPrintsWindows(ring: Ring, A: nat, B: nat, separate: bool) {
    forall sel :: PrintsWindows(ring, sel, A, B, separate)
  }

  /** The union of the windows is printed for every selection exactly when `A <= 1` or `B == 0`. */
  lemma {:induction false} WindowsExact(ring: Ring, A: nat, B: nat, separate: bool)
    requires B <= MAX_CTX
    ensures AlwaysPrintsWindows(ring, A, B, separate) <==> A <= 1 || B == 0
  {
    if A <= 1 || B == 0 {
      forall sel ensures PrintsWindows(ring, sel, A, B, separate) {
        ContextExact(ring, sel, |sel|, A, B, separate);
        forall l: nat | 1 <= l <= |sel| && InWindow(sel, |sel|, l, A, B) ensures !Suppressed(sel, l, A) {}
      }
    } else {
      var sel := [false, true];
      ContextExact(ring, sel, 2, A, B, separate);
      assert Selected(sel, 2) && InWindow(sel, 2, 1, A, B);
      assert Suppressed(sel, 1, A);
      assert !PrintsWindows(ring, sel, A, B, separate);
    }
  }

  // ----- the ring is too small for a larger -B -----

  /** Before any selected line, the ring holds the last 1024 line numbers. */
  lemma {:induction false} RunUnselected(ring: Ring, sel: seq<bool>, k: nat, A: nat, B: nat, separate: bool)
    requires k <= |sel| && B > 0 && forall i :: 0 <= i < k ==> !sel[i]
    ensures var s := Run(ring, sel, k, A, B, separate);
            && s.idx == k && s.count == Min(B, k) && s.last == -1 && s.after == 0 && s.out == []
            && forall i :: Max(0, k - MAX_CTX) <= i < k ==> Slot(s.ring, i) == i + 1
  {
    if k > 0 {
      RunUnselected(ring, sel, k - 1, A, B, separate);
      var before, s := Run(ring, sel, k - 1, A, B, separate), Run(ring, sel, k, A, B, separate);
      forall i | Max(0, k - MAX_CTX) <= i < k ensures Slot(s.ring, i) == i + 1 {
        if i < k - 1 {
          SlotsDiffer(i, k - 1);
          assert Slot(before.ring, i) == i + 1;
        }
      }
    }
  }

  lemma {:induction false} BufferedAll(ring: Ring, i: nat, idx: nat, bound: int, j: nat)
    requires i + j < idx && forall x :: i <= x < idx ==> Slot(ring, x) > bound
    ensures |Numbers(Buffered(ring, i, idx, bound))| == idx - i
    ensures Numbers(Buffered(ring, i, idx, bound))[j] == Slot(ring, i + j)
    decreases idx - i
  {
    var rest := Buffered(ring, i + 1, idx, bound);
    assert Numbers(Buffered(ring, i, idx, bound)) == [Slot(ring, i)] + Numbers(rest) by {
      NumbersOne(Line(Slot(ring, i), false));
      NumbersAppend([Line(Slot(ring, i), false)], rest);
    }
    if i + 1 < idx {
      BufferedAll(ring, i + 1, idx, bound, if j > 0 then j - 1 else 0);
    } else {
      NumbersOne(Separator);
    }
  }

  ghost predicate AlwaysIncreasing(ring: Ring, A: nat, B: nat, separate: bool) {
    forall sel :: Increasing(Numbers(Run(ring, sel, |sel|, A, B, separate).out))
  }

  /** A buffered line is printed twice: its slot comes round again after 1024 steps. */
  lemma {:induction false} SlotComesRound(ring: Ring, idx: nat, A: nat, B: nat, no: nat, separate: bool)
    requires MAX_CTX < B <= idx && forall x :: idx - B <= x < idx ==> Slot(ring, x) >= A
    ensures !Increasing(Numbers(Group(ring, idx, B, -1, no, A, B, separate)))
  {
    var i := idx - B;
    var before := Before(ring, idx, B, -1, A, B);
    var ns := Numbers(before);
    BufferedAll(ring, i, idx, A - 1, 0);
    BufferedAll(ring, i, idx, A - 1, MAX_CTX);
    assert ns[0] == ns[MAX_CTX];
    NumbersAppend(Gap(-1, no, A, B, separate), before);
    NumbersAppend(Gap(-1, no, A, B, separate) + before, [Line(no, true)]);
    var all := Numbers(Group(ring, idx, B, -1, no, A, B, separate));
    assert Gap(-1, no, A, B, separate) == [];
    assert all[0] == ns[0] && all[MAX_CTX] == ns[MAX_CTX];
  }

  /** Line numbers increase for every selection exactly when `-B` fits the ring. */
  lemma {:induction false} IncreasingExact(ring: Ring, A: nat, B: nat, separate: bool)
    ensures AlwaysIncreasing(ring, A, B, separate) <==> B <= MAX_CTX
  {
    if B <= MAX_CTX {
      forall sel ensures Increasing(Numbers(Run(ring, sel, |sel|, A, B, separate).out)) {
        ContextExact(ring, sel, |sel|, A, B, separate);
      }
    } else {
      var n := A + B + MAX_CTX;
      var sel := seq(n, _ => false) + [true];
      RunUnselected(ring, sel, n, A, B, separate);
      var s := Run(ring, sel, n, A, B, separate);
      forall x | n - B <= x < n ensures Slot(s.ring, x) >= A { RecentSlot(s.ring, x, n); }
      SlotComesRound(s.ring, n, A, B, n + 1, separate);
      var g := Group(s.ring, n, B, -1, n + 1, A, B, separate);
      assert [] + g == g;
      assert !Increasing(Numbers(Run(ring, sel, |sel|, A, B, separate).out));
    }
  }

  /** Every slot was last written during the last 1024 lines. */
  lemma {:induction false} RecentSlot(ring: Ring, x: nat, n: nat)
    requires x < n && n >= MAX_CTX && forall i :: n - MAX_CTX <= i < n ==> Slot(ring, i) == i + 1
    ensures Slot(ring, x) > n - MAX_CTX
  {
    var y := x + (n - 1 - x) / MAX_CTX * MAX_CTX;
    assert n - MAX_CTX <= y < n && y % MAX_CTX == x % MAX_CTX;
    assert Slot(ring, y) == y + 1;
  }
}
