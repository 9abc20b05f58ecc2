/** Where the context printing of user/grep.c puts the group separator. */
module GrepSeparators {
  import opened Bytes
  import opened GrepContext
  import opened GrepWindows

  // ----- how many separators there are -----

  /** How many selected lines lie more than `A + 1` lines behind the one before. */
  function Gaps(sel: seq<bool>, k: nat, A: nat): nat
    requires k <= |sel|
  {
    if k == 0 then 0
    else
      var last := LastSelected(sel, k - 1);
      Gaps(sel, k - 1, A) + (if sel[k - 1] && last != -1 && k > last + A + 1 then 1 else 0)
  }

  lemma {:induction false} SeparatorsStep(s: State, k: nat, selected: bool, A: nat, B: nat)
    requires k >= 1 && RingOk(s, k - 1) && s.last >= -1 && s.count <= B
    ensures Separators(Step(s, k, selected, A, B, true).out)
         == Separators(s.out) + if selected then |Gap(s.last, k, A, B, true)| else 0
  {
    if selected { StepNumbers(s, k, A, B, true); } else { OtherNumbers(s, k, A, B, true); }
  }

  /** A separator is printed for exactly the selected lines more than `A + 1` behind the one before. */
  lemma {:induction false} SeparatorsExact(ring: Ring, sel: seq<bool>, k: nat, A: nat, B: nat)
    requires k <= |sel| && B <= MAX_CTX && (A > 0 || B > 0)
    ensures Separators(Run(ring, sel, k, A, B, true).out) == Gaps(sel, k, A)
  {
    if k > 0 {
      SeparatorsExact(ring, sel, k - 1, A, B);
      RunInv(ring, sel, k - 1, A, B, true);
      SeparatorsStep(Run(ring, sel, k - 1, A, B, true), k, sel[k - 1], A, B);
    }
  }

  // ----- where they stand -----

  /** The event at `i`, a line, continues the one before it, or follows a separator and leaves a line out. */
  predicate TidyAt(out: seq<Event>, i: nat)
    requires i < |out|
  {
    out[i].Line? && i > 0 ==>
      if out[i - 1].Line? then out[i].no == out[i - 1].no + 1
      else i > 1 && out[i - 2].Line? && out[i].no > out[i - 2].no + 1
  }

  /** Separators stand exactly where printed line numbers are not consecutive. */
  ghost predicate Tidy(out: seq<Event>) {
    forall i :: 0 <= i < |out| ==> TidyAt(out, i)
  }

  /** Selected line `m` lies behind the trailing context of the one before, but its own context reaches back to it. */
  predicate NarrowGap(sel: seq<bool>, m: nat, A: nat, B: nat)
    requires m <= |sel|
  {
    m > 0 && sel[m - 1] &&
    var last := LastSelected(sel, m - 1);
    last != -1 && last + A + 1 < m <= last + A + 1 + B
  }

  ghost predicate NoNarrowGap(sel: seq<bool>, k: nat, A: nat, B: nat)
    requires k <= |sel|
  {
    forall m :: 0 <= m <= k ==> !NarrowGap(sel, m, A, B)
  }

  /** The last thing printed after `k` lines, the last selected one of them being `last`. */
  ghost predicate EndsAt(out: seq<Event>, last: int, k: nat, A: nat) {
    if last == -1 then out == []
    else out != [] && out[|out| - 1].Line? && out[|out| - 1].no == Min(last + A, k)
  }

  lemma {:induction false} TidyPrefix(out: seq<Event>, g: seq<Event>)
    ensures Tidy(out + g) <==> Tidy(out) && forall i :: |out| <= i < |out + g| ==> TidyAt(out + g, i)
  {
    forall i | 0 <= i < |out| ensures TidyAt(out + g, i) <==> TidyAt(out, i) {}
    if Tidy(out + g) {
      forall i | 0 <= i < |out| ensures TidyAt(out, i) { assert TidyAt(out + g, i); }
    }
  }

  /** A run of consecutive lines is tidy when its first line is. */
  lemma {:induction false} RunTidy(out: seq<Event>, at: nat)
    requires at < |out| && out[at].Line? && TidyAt(out, at)
    requires forall i :: at <= i < |out| ==> out[i].Line? && out[i].no == out[at].no + (i - at)
    ensures forall i :: at <= i < |out| ==> TidyAt(out, i)
  {}

  /** A group of consecutive lines `lo ..` behind `out`, with or without a separator. */
  lemma {:induction false} GroupTidy(out: seq<Event>, gap: seq<Event>, lines: seq<Event>, lo: nat, p: nat)
    requires out != [] && out[|out| - 1].Line? && out[|out| - 1].no == p
    requires gap == [] || gap == [Separator]
    requires lines != [] && forall j :: 0 <= j < |lines| ==> lines[j].Line? && lines[j].no == lo + j
    ensures Tidy(out + gap + lines) <==> Tidy(out) && if gap == [] then lo == p + 1 else lo > p + 1
  {
    var all := out + gap + lines;
    var at := |out + gap|;
    assert all == out + (gap + lines);
    TidyPrefix(out, gap + lines);
    assert all[at] == lines[0] && all[|out| - 1] == out[|out| - 1];
    forall i | at <= i < |all| ensures all[i].Line? && all[i].no == all[at].no + (i - at) {
      assert all[i] == lines[i - at];
    }
    if TidyAt(all, at) { RunTidy(all, at); }
  }

  lemma {:induction false} FirstGroupTidy(lines: seq<Event>, lo: nat)
    requires lines != [] && forall j :: 0 <= j < |lines| ==> lines[j].Line? && lines[j].no == lo + j
    ensures Tidy(lines)
  {
    RunTidy(lines, 0);
  }

  /** The events of a selected line: perhaps a separator, then the lines `lo ..` up to itself. */
  lemma {:induction false} StepEvents(s: State, k: nat, A: nat, B: nat, lo: nat, lines: seq<Event>)
    requires k >= 1 && RingOk(s, k - 1) && s.last >= -1 && s.count <= B
    requires lo == Max(s.last + A + 1, k - s.count) && lines == Lines(lo, k - 1) + [Line(k, true)]
    ensures Step(s, k, true, A, B, true).out == s.out + Gap(s.last, k, A, B, true) + lines
  {
    BeforeLines(s, k, A, B);
  }

  lemma {:induction false} GroupLines(lines: seq<Event>, lo: nat, k: nat)
    requires k >= 1 && lines == Lines(lo, k - 1) + [Line(k, true)]
    ensures lines != [] && lines[|lines| - 1] == Line(k, true)
    ensures forall j :: 0 <= j < |lines| ==> lines[j].Line? && lines[j].no == Min(lo, k) + j
  {}

  /** Where a group starts, against the end `p` of what was printed before it. */
  lemma {:induction false} GroupStart(sel: seq<bool>, k: nat, last: nat, A: nat, B: nat, lo: nat, p: nat)
    requires 1 <= k <= |sel| && sel[k - 1] && last == LastSelected(sel, k - 1) && (A > 0 || B > 0)
    requires lo == Max(last + A + 1, k - Min(B, Max(0, k - 1 - (last + A)))) && p == Min(last + A, k - 1)
    ensures !NarrowGap(sel, k, A, B)
       <==> if Gap(last, k, A, B, true) == [] then Min(lo, k) == p + 1 else Min(lo, k) > p + 1
  {}

  lemma {:induction false} LaterGroup(
    out: seq<Event>, sel: seq<bool>, k: nat, last: nat, A: nat, B: nat, lo: nat, lines: seq<Event>)
    requires 1 <= k <= |sel| && sel[k - 1] && last == LastSelected(sel, k - 1) && (A > 0 || B > 0)
    requires lo == Max(last + A + 1, k - Min(B, Max(0, k - 1 - (last + A)))) && EndsAt(out, last, k - 1, A)
    requires lines == Lines(lo, k - 1) + [Line(k, true)]
    ensures Tidy(out + Gap(last, k, A, B, true) + lines) <==> Tidy(out) && !NarrowGap(sel, k, A, B)
  {
    var p := Min(last + A, k - 1);
    GroupLines(lines, lo, k);
    GroupTidy(out, Gap(last, k, A, B, true), lines, Min(lo, k), p);
    GroupStart(sel, k, last, A, B, lo, p);
  }

  lemma {:induction false} StepSelected(s: State, sel: seq<bool>, k: nat, A: nat, B: nat)
    requires 1 <= k <= |sel| && sel[k - 1] && B <= MAX_CTX && (A > 0 || B > 0)
    requires Inv(s, sel, k - 1, A, B) && EndsAt(s.out, s.last, k - 1, A)
    ensures Tidy(Step(s, k, true, A, B, true).out) <==> Tidy(s.out) && !NarrowGap(sel, k, A, B)
    ensures EndsAt(Step(s, k, true, A, B, true).out, k, k, A)
  {
    var lo := Max(s.last + A + 1, k - s.count);
    var lines := Lines(lo, k - 1) + [Line(k, true)];
    StepEvents(s, k, A, B, lo, lines);
    GroupLines(lines, lo, k);
    if s.last == -1 {
      assert s.out + Gap(-1, k, A, B, true) + lines == lines;
      FirstGroupTidy(lines, Min(lo, k));
    } else {
      LaterGroup(s.out, sel, k, s.last, A, B, lo, lines);
    }
  }

  lemma {:induction false} StepOther(s: State, sel: seq<bool>, k: nat, A: nat, B: nat)
    requires 1 <= k <= |sel| && !sel[k - 1]
    requires Inv(s, sel, k - 1, A, B) && EndsAt(s.out, s.last, k - 1, A)
    ensures Tidy(Step(s, k, false, A, B, true).out) <==> Tidy(s.out)
    ensures EndsAt(Step(s, k, false, A, B, true).out, s.last, k, A)
  {
    if s.after > 0 {
      GroupTidy(s.out, [], [Line(k, false)], k, k - 1);
      assert s.out + [] + [Line(k, false)] == s.out + [Line(k, false)];
    }
  }

  lemma {:induction false} NarrowGapStep(sel: seq<bool>, k: nat, A: nat, B: nat)
    requires 1 <= k <= |sel|
    ensures NoNarrowGap(sel, k, A, B) <==> NoNarrowGap(sel, k - 1, A, B) && !NarrowGap(sel, k, A, B)
  {}

  lemma {:induction false} TidyStep(s: State, sel: seq<bool>, k: nat, A: nat, B: nat)
    requires 1 <= k <= |sel| && B <= MAX_CTX && (A > 0 || B > 0) && Inv(s, sel, k - 1, A, B)
    requires Tidy(s.out) <==> NoNarrowGap(sel, k - 1, A, B)
    requires EndsAt(s.out, LastSelected(sel, k - 1), k - 1, A)
    ensures Tidy(Step(s, k, sel[k - 1], A, B, true).out) <==> NoNarrowGap(sel, k, A, B)
    ensures EndsAt(Step(s, k, sel[k - 1], A, B, true).out, LastSelected(sel, k), k, A)
  {
    NarrowGapStep(sel, k, A, B);
    if sel[k - 1] { StepSelected(s, sel, k, A, B); } else { StepOther(s, sel, k, A, B); }
  }

  /** Every selection: separators mark exactly the jumps unless some gap is no wider than `B` lines. */
  lemma {:induction false} TidyExact(ring: Ring, sel: seq<bool>, k: nat, A: nat, B: nat)
    requires k <= |sel| && B <= MAX_CTX && (A > 0 || B > 0)
    ensures Tidy(Run(ring, sel, k, A, B, true).out) <==> NoNarrowGap(sel, k, A, B)
    ensures EndsAt(Run(ring, sel, k, A, B, true).out, LastSelected(sel, k), k, A)
  {
    if k > 0 {
      TidyExact(ring, sel, k - 1, A, B);
      RunInv(ring, sel, k - 1, A, B, true);
      TidyStep(Run(ring, sel, k - 1, A, B, true), sel, k, A, B);
    }
  }

  // ----- counted -----

  /** How many printed line numbers do not follow the one before. */
  function Jumps(ns: seq<nat>): nat {
    var n := |ns| - 1;
    if n < 1 then 0 else Jumps(ns[..n]) + (if ns[n] == ns[n - 1] + 1 then 0 else 1)
  }

  lemma {:induction false} JumpsOne(ns: seq<nat>, k: nat)
    ensures Jumps(ns + [k]) == Jumps(ns) + (if ns != [] && k != ns[|ns| - 1] + 1 then 1 else 0)
  {
    assert (ns + [k])[..|ns|] == ns;
  }

  /** The numbers `lo .. hi` behind `ns` jump at most once, at their start. */
  lemma {:induction false} JumpsSpan(ns: seq<nat>, lo: nat, hi: int)
    requires lo <= hi
    ensures Jumps(ns + Span(lo, hi)) == Jumps(ns) + (if ns != [] && lo != ns[|ns| - 1] + 1 then 1 else 0)
    decreases hi - lo
  {
    if lo == hi {
      assert Span(lo, hi) == [lo];
      JumpsOne(ns, lo);
    } else {
      var init := ns + Span(lo, hi - 1);
      assert ns + Span(lo, hi) == init + [hi] && init[|init| - 1] == hi - 1;
      JumpsSpan(ns, lo, hi - 1);
      JumpsOne(init, hi);
    }
  }

  function NarrowGaps(sel: seq<bool>, k: nat, A: nat, B: nat): nat
    requires k <= |sel|
  {
    if k == 0 then 0 else NarrowGaps(sel, k - 1, A, B) + (if NarrowGap(sel, k, A, B) then 1 else 0)
  }

  lemma {:induction false} NarrowGapsNone(sel: seq<bool>, k: nat, A: nat, B: nat)
    requires k <= |sel|
    ensures NarrowGaps(sel, k, A, B) == 0 <==> NoNarrowGap(sel, k, A, B)
  {
    if k > 0 {
      NarrowGapsNone(sel, k - 1, A, B);
      NarrowGapStep(sel, k, A, B);
    }
  }

  /** A group jumps or its gap is narrow, when a separator is printed, and neither otherwise. */
  lemma {:induction false} GroupCounts(sel: seq<bool>, k: nat, last: nat, A: nat, B: nat, lo: nat, p: nat)
    requires 1 <= k <= |sel| && sel[k - 1] && last == LastSelected(sel, k - 1) && (A > 0 || B > 0)
    requires lo == Max(last + A + 1, k - Min(B, Max(0, k - 1 - (last + A)))) && p == Min(last + A, k - 1)
    ensures |Gap(last, k, A, B, true)|
         == (if Min(lo, k) == p + 1 then 0 else 1) + (if NarrowGap(sel, k, A, B) then 1 else 0)
  {
    GroupStart(sel, k, last, A, B, lo, p);
  }

  /** The separators that do not mark a jump. */
  function Excess(out: seq<Event>): int { Separators(out) - Jumps(Numbers(out)) }

  lemma {:induction false} ExcessSpan(out: seq<Event>, more: seq<Event>, lo: nat, k: nat, gaps: nat, p: int)
    requires Numbers(more) == Numbers(out) + (Span(lo, k - 1) + [k]) && Separators(more) == Separators(out) + gaps
    requires if p == -1 then Numbers(out) == [] else Numbers(out) != [] && Numbers(out)[|Numbers(out)| - 1] == p
    ensures Excess(more) == Excess(out) + gaps - if p == -1 || Min(lo, k) == p + 1 then 0 else 1
  {
    assert Span(lo, k - 1) + [k] == Span(Min(lo, k), k);
    JumpsSpan(Numbers(out), Min(lo, k), k);
  }

  lemma {:induction false} CountsSelected(s: State, sel: seq<bool>, k: nat, A: nat, B: nat)
    requires 1 <= k <= |sel| && sel[k - 1] && B <= MAX_CTX && (A > 0 || B > 0)
    requires Inv(s, sel, k - 1, A, B) && EndsAt(s.out, s.last, k - 1, A)
    ensures Excess(Step(s, k, true, A, B, true).out) == Excess(s.out) + if NarrowGap(sel, k, A, B) then 1 else 0
  {
    var lo, gaps := Max(s.last + A + 1, k - s.count), |Gap(s.last, k, A, B, true)|;
    var p := if s.last == -1 then -1 else Min(s.last + A, k - 1);
    StepNumbers(s, k, A, B, true);
    ExcessSpan(s.out, Step(s, k, true, A, B, true).out, lo, k, gaps, p);
    if s.last != -1 { GroupCounts(sel, k, s.last, A, B, lo, p); }
  }

  lemma {:induction false} CountsOther(s: State, sel: seq<bool>, k: nat, A: nat, B: nat)
    requires 1 <= k <= |sel| && !sel[k - 1]
    requires Inv(s, sel, k - 1, A, B) && EndsAt(s.out, s.last, k - 1, A)
    ensures Excess(Step(s, k, false, A, B, true).out) == Excess(s.out)
  {
    OtherNumbers(s, k, A, B, true);
    JumpsOne(Numbers(s.out), k);
  }

  lemma {:induction false} CountsStep(s: State, sel: seq<bool>, k: nat, A: nat, B: nat)
    requires 1 <= k <= |sel| && B <= MAX_CTX && (A > 0 || B > 0)
    requires Inv(s, sel, k - 1, A, B) && EndsAt(s.out, LastSelected(sel, k - 1), k - 1, A)
    ensures Excess(Step(s, k, sel[k - 1], A, B, true).out) == Excess(s.out) + if NarrowGap(sel, k, A, B) then 1 else 0
  {
    if sel[k - 1] { CountsSelected(s, sel, k, A, B); } else { CountsOther(s, sel, k, A, B); }
  }

  lemma {:induction false} RunEnds(ring: Ring, sel: seq<bool>, k: nat, A: nat, B: nat)
    requires k <= |sel| && B <= MAX_CTX && (A > 0 || B > 0)
    ensures var s := Run(ring, sel, k, A, B, true);
            Inv(s, sel, k, A, B) && EndsAt(s.out, LastSelected(sel, k), k, A)
  {
    RunInv(ring, sel, k, A, B, true);
    TidyExact(ring, sel, k, A, B);
  }

  /** Every selection: there is one separator for each jump of the printed numbers, and one more for each narrow gap. */
  lemma {:induction false} CountsExact(ring: Ring, sel: seq<bool>, k: nat, A: nat, B: nat)
    requires k <= |sel| && B <= MAX_CTX && (A > 0 || B > 0)
    ensures Excess(Run(ring, sel, k, A, B, true).out) == NarrowGaps(sel, k, A, B)
  {
    if k > 0 {
      CountsExact(ring, sel, k - 1, A, B);
      RunEnds(ring, sel, k - 1, A, B);
      CountsStep(Run(ring, sel, k - 1, A, B, true), sel, k, A, B);
    }
  }

  // ----- for every selection -----

  ghost predicate AlwaysCounts(ring: Ring, A: nat, B: nat) {
    forall sel :: CountsRight(Run(ring, sel, |sel|, A, B, true).out)
  }

  predicate CountsRight(out: seq<Event>) { Separators(out) == Jumps(Numbers(out)) }

  ghost predicate AlwaysTidy(ring: Ring, A: nat, B: nat) {
    forall sel :: Tidy(Run(ring, sel, |sel|, A, B, true).out)
  }

  lemma {:induction false} NoneSelected(sel: seq<bool>, k: nat, m: nat)
    requires 1 <= m <= k <= |sel| && sel[m - 1] && forall i :: m <= i < k ==> !sel[i]
    ensures LastSelected(sel, k) == m
  {
    if k > m { NoneSelected(sel, k - 1, m); }
  }

  /** Separators mark the jumps of the printed numbers, by place or by count, for every selection iff `B == 0`. */
  lemma {:induction false} AlwaysTidyExact(ring: Ring, A: nat, B: nat)
    requires B <= MAX_CTX && (A > 0 || B > 0)
    ensures AlwaysTidy(ring, A, B) <==> B == 0
    ensures AlwaysCounts(ring, A, B) <==> B == 0
  {
    if B == 0 {
      forall sel ensures Tidy(Run(ring, sel, |sel|, A, B, true).out) { TidyExact(ring, sel, |sel|, A, B); }
      forall sel ensures CountsRight(Run(ring, sel, |sel|, A, B, true).out) {
        CountsExact(ring, sel, |sel|, A, B);
        NarrowGapsNone(sel, |sel|, A, B);
      }
    } else {
      var sel := [true] + seq(A + 1, _ => false) + [true];
      NoneSelected(sel, A + 2, 1);
      assert NarrowGap(sel, A + 3, A, B);
      TidyExact(ring, sel, |sel|, A, B);
      assert !Tidy(Run(ring, sel, |sel|, A, B, true).out);
      CountsExact(ring, sel, |sel|, A, B);
      NarrowGapsNone(sel, |sel|, A, B);
      assert !CountsRight(Run(ring, sel, |sel|, A, B, true).out);
    }
  }

  /** `-B1` with lines 1 and 3 selected prints lines 1, 2 and 3, and a separator between the first two. */
  lemma {:induction false} SeparatorInsideGroup(ring: Ring)
    ensures Run(ring, [true, false, true], 3, 0, 1, true).out
         == [Line(1, true), Separator, Line(2, false), Line(3, true)]
  {
    var sel := [true, false, true];
    var start := State(ring, 0, 0, -1, 0, []);
    assert Run(ring, sel, 0, 0, 1, true) == start;
    var a := Step(start, 1, true, 0, 1, true);
    assert Buffered(ring, 0, 0, -1) == [];
    var b := Step(a, 2, false, 0, 1, true);
    assert Run(ring, sel, 1, 0, 1, true) == a && Run(ring, sel, 2, 0, 1, true) == b;
    assert Buffered(b.ring, 1, 1, 1) == [] && Slot(b.ring, 0) == 2;
    assert Buffered(b.ring, 0, 1, 1) == [Line(2, false)];
  }
}
