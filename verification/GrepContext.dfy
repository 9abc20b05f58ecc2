/**
 Context lines in user/grep.c: the line loop with `-A` and `-B`, its ring buffer
 of 1024 slots, and what it prints.  Which lines are selected is given; options
 that stop early or print something else (-o, -c, -m, -q, -l) are off.
 */
module GrepContext {

  const MAX_CTX := 1024

  datatype Event = Separator | Line(no: nat, selected: bool)

  type Ring = r: seq<nat> | |r| == MAX_CTX witness seq(MAX_CTX, _ => 0)

  /** The loop's variables: the ring with its write position and fill, and the printing state. */
  datatype State = State(ring: Ring, idx: nat, count: nat, last: int, after: nat, out: seq<Event>)

  // ----- the loop as a function -----

  function Slot(ring: Ring, i: nat): nat { ring[i % MAX_CTX] }

  /** The buffered lines from slot position `i` on that lie behind line `bound`. */
  function Buffered(ring: Ring, i: nat, idx: nat, bound: int): seq<Event>
    requires i <= idx
    decreases idx - i
  {
    if i == idx then []
    else (if Slot(ring, i) > bound then [Line(Slot(ring, i), false)] else [])
         + Buffered(ring, i + 1, idx, bound)
  }

  function Gap(last: int, no: nat, A: nat, B: nat, separate: bool): (r: seq<Event>) {
    if (B > 0 || A > 0) && separate && last >= 0 && no > last + A + 1 then [Separator] else []
  }

  function Before(ring: Ring, idx: nat, count: nat, last: int, A: nat, B: nat): seq<Event>
    requires count <= idx
  {
    if B > 0 then Buffered(ring, idx - count, idx, last + A) else []
  }

  /** What a selected line prints: a separator after a gap, its buffered lines, itself. */
  function Group(ring: Ring, idx: nat, count: nat, last: int, no: nat, A: nat, B: nat, separate: bool): seq<Event>
    requires count <= idx
  {
    Gap(last, no, A, B, separate) + Before(ring, idx, count, last, A, B) + [Line(no, true)]
  }

  function Step(s: State, no: nat, selected: bool, A: nat, B: nat, separate: bool): (r: State)
    requires s.count <= s.idx
    ensures r.count <= r.idx
  {
    if selected then
      s.(count := if B > 0 then 0 else s.count, last := no, after := A,
         out := s.out + Group(s.ring, s.idx, s.count, s.last, no, A, B, separate))
    else if s.after > 0 then
      s.(after := s.after - 1, out := s.out + [Line(no, false)])
    else if B > 0 then
      s.(ring := s.ring[s.idx % MAX_CTX := no], idx := s.idx + 1, count := if s.count < B then s.count + 1 else s.count)
    else s
  }

  /** The state after the first `k` lines. */
  function Run(ring: Ring, sel: seq<bool>, k: nat, A: nat, B: nat, separate: bool): (r: State)
    requires k <= |sel|
    ensures r.count <= r.idx
  {
    if k == 0 then State(ring, 0, 0, -1, 0, [])
    else Step(Run(ring, sel, k - 1, A, B, separate), k, sel[k - 1], A, B, separate)
  }

  // ----- the program -----

  method BeforeBufAdd(ring: array<nat>, idx: nat, count: nat, no: nat, B: nat) returns (idx': nat, count': nat)
    requires ring.Length == MAX_CTX
    modifies ring
    ensures B == 0 ==> ring[..] == old(ring[..]) && idx' == idx && count' == count
    ensures B > 0 ==> ring[..] == old(ring[..])[idx % MAX_CTX := no] && idx' == idx + 1
    ensures B > 0 ==> count' == if count < B then count + 1 else count
  {
    idx', count' := idx, count;
    if B > 0 {
      ring[idx % MAX_CTX] := no;
      idx' := idx + 1;
      if count < B { count' := count + 1; }
    }
  }

  lemma {:induction false} BufferedStep(out: seq<Event>, ring: Ring, i: nat, idx: nat, bound: int, no: nat)
    requires i < idx && no == Slot(ring, i)
    ensures out + Buffered(ring, i, idx, bound)
         == (if no > bound then out + [Line(no, false)] else out) + Buffered(ring, i + 1, idx, bound)
  {
    var rest := Buffered(ring, i + 1, idx, bound);
    assert [] + rest == rest && out + ([Line(no, false)] + rest) == out + [Line(no, false)] + rest;
  }

  method PrintBuffered(ring: array<nat>, start: nat, idx: nat, bound: int) returns (out: seq<Event>)
    requires ring.Length == MAX_CTX && start <= idx
    ensures out == Buffered(ring[..], start, idx, bound)
  {
    out := [];
    for i := start to idx
      invariant out + Buffered(ring[..], i, idx, bound) == Buffered(ring[..], start, idx, bound)
    {
      var no := ring[i % MAX_CTX];
      BufferedStep(out, ring[..], i, idx, bound, no);
      if no > bound { out := out + [Line(no, false)]; }
    }
  }

  method PrintGroup(ring: array<nat>, idx: nat, count: nat, last: int, no: nat, A: nat, B: nat, separate: bool)
    returns (out: seq<Event>)
    requires ring.Length == MAX_CTX && count <= idx
    ensures out == Group(ring[..], idx, count, last, no, A, B, separate)
  {
    out := [];
    if (B > 0 || A > 0) && separate && last >= 0 && no > last + A + 1 { out := [Separator]; }
    if B > 0 && count > 0 {
      var before := PrintBuffered(ring, idx - count, idx, last + A);
      out := out + before;
    }
    out := out + [Line(no, true)];
  }

  /** The ring keeps whatever an earlier file left in it; only the counters are reset. */
  method ProcessFile(ring: array<nat>, sel: seq<bool>, A: nat, B: nat, separate: bool) returns (out: seq<Event>)
    requires ring.Length == MAX_CTX
    modifies ring
    ensures out == Run(old(ring[..]), sel, |sel|, A, B, separate).out
  {
    out := [];
    var idx: nat, count: nat, last: int, after: nat, no: nat := 0, 0, -1, 0, 0;
    while no < |sel|
      invariant no <= |sel|
      invariant State(ring[..], idx, count, last, after, out) == Run(old(ring[..]), sel, no, A, B, separate)
    {
      no := no + 1;
      if sel[no - 1] {
        var group := PrintGroup(ring, idx, count, last, no, A, B, separate);
        if B > 0 { count := 0; }
        out, last, after := out + group, no, A;
      } else if after > 0 {
        out, after := out + [Line(no, false)], after - 1;
      } else {
        idx, count := BeforeBufAdd(ring, idx, count, no, B);
      }
    }
  }
}
