/**
 Domain names in DNS packets as user/host.c reads them, with the compression of
 section 4.1.4 of RFC 1035.
 */
module HostName {
  import opened Bytes

  const MAX_JUMPS := 16
  const JUMP_MARK := 0xC0
  const DOT: Byte := 46

  // ----- the readers of the program -----

  function Skip(pkt: seq<Byte>, off: nat): int
    decreases |pkt| - off
  {
    if off >= |pkt| then |pkt|
    else if pkt[off] == 0 then off + 1
    else if pkt[off] >= JUMP_MARK then off + 2
    else Skip(pkt, off + 1 + pkt[off])
  }

  datatype Decoded = Decoded(name: seq<Byte>, off: int)

  /** Where a pointer leads; `beyond` is what lies behind the packet when it cuts the pointer off. */
  function Target(pkt: seq<Byte>, pos: nat, beyond: Byte): nat
    requires pos < |pkt| && pkt[pos] >= JUMP_MARK
  {
    (pkt[pos] - JUMP_MARK) * 256 + if pos + 1 < |pkt| then pkt[pos + 1] else beyond
  }

  function Dotted(out: seq<Byte>, room: nat): (r: seq<Byte>)
    ensures |out| <= room ==> |r| <= room
  {
    if 0 < |out| < room then out + [DOT] else out
  }

  /** How much of a label is copied: it ends with the packet or with the buffer. */
  function Copied(pkt: seq<Byte>, pos: nat, used: nat, room: nat): (n: nat)
    requires pos < |pkt| && used <= room
    ensures pos + 1 + n <= |pkt| && used + n <= room
  {
    Min(pkt[pos], Min(|pkt| - (pos + 1), room - used))
  }

  function Decode(
    pkt: seq<Byte>, beyond: Byte, pos: nat, jumps: nat, saved: int, out: seq<Byte>, room: nat): (r: Decoded)
    requires |out| <= room
    ensures |r.name| <= room
    decreases MAX_JUMPS - jumps, |pkt| - pos
  {
    if pos >= |pkt| || jumps >= MAX_JUMPS then Decoded(out, if saved >= 0 then saved else pos)
    else if pkt[pos] == 0 then Decoded(out, if saved >= 0 then saved else pos + 1)
    else if pkt[pos] >= JUMP_MARK then
      Decode(pkt, beyond, Target(pkt, pos, beyond), jumps + 1, if saved < 0 then pos + 2 else saved, out, room)
    else
      var dotted := Dotted(out, room);
      var n := Copied(pkt, pos, |dotted|, room);
      Decode(pkt, beyond, pos + 1 + n, jumps, saved, dotted + pkt[pos + 1..pos + 1 + n], room)
  }

  // ----- the loops of the program -----

  method SkipDnsName(pkt: seq<Byte>, start: nat) returns (r: int)
    ensures r == Skip(pkt, start)
  {
    var off := start;
    while off < |pkt|
      invariant Skip(pkt, off) == Skip(pkt, start)
    {
      var len := pkt[off];
      if len == 0 { return off + 1; }
      if len >= JUMP_MARK { return off + 2; }
      off := off + 1 + len;
    }
    r := |pkt|;
  }

  /** The bytes of one label, as far as packet and buffer go. */
  method CopyLabel(pkt: seq<Byte>, start: nat, out: array<Byte>, used: nat) returns (pos: nat, olen: nat)
    requires start < |pkt| && used < out.Length
    modifies out
    ensures var n := Copied(pkt, start, used, out.Length - 1);
            pos == start + 1 + n && olen == used + n && out[..olen] == old(out[..used]) + pkt[start + 1..pos]
  {
    var len := pkt[start];
    pos, olen := start + 1, used;
    var i := 0;
    while i < len && pos < |pkt| && olen < out.Length - 1
      invariant 0 <= i <= len && pos == start + 1 + i <= |pkt| && olen == used + i < out.Length
      invariant out[..olen] == old(out[..used]) + pkt[start + 1..pos]
    {
      out[olen] := pkt[pos];
      pos, olen, i := pos + 1, olen + 1, i + 1;
    }
  }

  /** A label behind what is there already, a dot between them if both fit. */
  method TakeLabel(pkt: seq<Byte>, start: nat, out: array<Byte>, used: nat) returns (pos: nat, olen: nat)
    requires start < |pkt| && used < out.Length
    modifies out
    ensures var dotted := Dotted(old(out[..used]), out.Length - 1);
            var n := Copied(pkt, start, |dotted|, out.Length - 1);
            pos == start + 1 + n && olen == |dotted| + n < out.Length && out[..olen] == dotted + pkt[start + 1..pos]
  {
    olen := used;
    if 0 < olen < out.Length - 1 {
      out[olen] := DOT;
      olen := olen + 1;
    }
    assert out[..olen] == Dotted(old(out[..used]), out.Length - 1);
    pos, olen := CopyLabel(pkt, start, out, olen);
  }

  method DecodeDnsName(pkt: seq<Byte>, beyond: Byte, off: nat, out: array<Byte>) returns (r: int, olen: nat)
    requires out.Length > 0
    modifies out
    ensures olen < out.Length && out[olen] == 0
    ensures Decoded(out[..olen], r) == Decode(pkt, beyond, off, 0, -1, [], out.Length - 1)
  {
    var saved: int, pos: nat, jumps: nat := -1, off, 0;
    olen := 0;
    out[0] := 0;
    ghost var whole := Decode(pkt, beyond, off, 0, -1, [], out.Length - 1);
    while pos < |pkt| && jumps < MAX_JUMPS
      invariant olen < out.Length
      invariant Decode(pkt, beyond, pos, jumps, saved, out[..olen], out.Length - 1) == whole
      decreases MAX_JUMPS - jumps, |pkt| - pos
    {
      var len := pkt[pos];
      if len == 0 {
        out[olen] := 0;
        return if saved >= 0 then saved else pos + 1, olen;
      }
      if len >= JUMP_MARK {
        if saved < 0 { saved := pos + 2; }
        pos, jumps := Target(pkt, pos, beyond), jumps + 1;
        continue;
      }
      pos, olen := TakeLabel(pkt, pos, out, olen);
    }
    DecodeStops(pkt, beyond, pos, jumps, saved, out[..olen], out.Length - 1);
    out[olen] := 0;
    r := if saved >= 0 then saved else pos;
  }

  lemma {:induction false} DecodeStops(
    pkt: seq<Byte>, beyond: Byte, pos: nat, jumps: nat, saved: int, out: seq<Byte>, room: nat)
    requires |out| <= room && (pos >= |pkt| || jumps >= MAX_JUMPS)
    ensures Decode(pkt, beyond, pos, jumps, saved, out, room) == Decoded(out, if saved >= 0 then saved else pos)
  {}

  // ----- names as RFC 1035 defines them -----

  type Label = seq<Byte>

  datatype Part = Text(text: Label) | Jump(target: nat)

  predicate TextAt(pkt: seq<Byte>, pos: nat, text: Label) {
    && 1 <= |text| <= 63 && pos + 1 + |text| <= |pkt| && pkt[pos] == |text|
    && pkt[pos + 1..pos + 1 + |text|] == text
  }

  /** The octets at `off` are a name: labels, pointers, and the zero octet of the root. */
  predicate NameAt(pkt: seq<Byte>, off: nat, parts: seq<Part>)
    decreases |parts|
  {
    && off < |pkt|
    && if parts == [] then pkt[off] == 0
       else
         match parts[0]
         case Text(text) =>
           TextAt(pkt, off, text) && NameAt(pkt, off + 1 + |text|, parts[1..])
         case Jump(target) =>
           && off + 1 < |pkt| && pkt[off] >= JUMP_MARK
           && target == (pkt[off] - JUMP_MARK) * 256 + pkt[off + 1]
           && NameAt(pkt, target, parts[1..])
  }

  /** The octets at `off` are at most one name. */
  lemma {:induction false} NameUnique(pkt: seq<Byte>, off: nat, a: seq<Part>, b: seq<Part>)
    requires NameAt(pkt, off, a) && NameAt(pkt, off, b)
    ensures a == b
    decreases |a|
  {
    if a != [] && b != [] {
      var next := match a[0] case Text(l) => off + 1 + |l| case Jump(t) => t;
      NameUnique(pkt, next, a[1..], b[1..]);
      assert a == [a[0]] + a[1..] && b == [b[0]] + b[1..];
    }
  }

  function Labels(parts: seq<Part>): seq<Label> {
    if parts == [] then []
    else if parts[0].Text? then [parts[0].text] + Labels(parts[1..])
    else Labels(parts[1..])
  }

  function Pointers(parts: seq<Part>): nat {
    if parts == [] then 0 else (if parts[0].Jump? then 1 else 0) + Pointers(parts[1..])
  }

  /** The labels in front of the `j`th pointer. */
  function LabelsWithin(parts: seq<Part>, j: nat): seq<Label>
    decreases |parts|
  {
    if parts == [] || j == 0 then []
    else if parts[0].Text? then [parts[0].text] + LabelsWithin(parts[1..], j)
    else LabelsWithin(parts[1..], j - 1)
  }

  /** The labels behind the `j`th pointer. */
  function LabelsBehind(parts: seq<Part>, j: nat): seq<Label>
    decreases |parts|
  {
    if parts == [] then []
    else if j == 0 then Labels(parts)
    else LabelsBehind(parts[1..], if parts[0].Text? then j else j - 1)
  }

  /** The labels with dots between them. */
  function Joined(ls: seq<Label>): seq<Byte> {
    if ls == [] then [] else if |ls| == 1 then ls[0] else ls[0] + [DOT] + Joined(ls[1..])
  }

  // ----- the decoder on names -----

  /** Text so far, with more labels behind it. */
  function Glue(out: seq<Byte>, ls: seq<Label>): seq<Byte> {
    if ls == [] then out else if out == [] then Joined(ls) else out + [DOT] + Joined(ls)
  }

  function OneMore(out: seq<Byte>, text: Label): seq<Byte> { if out == [] then text else out + [DOT] + text }

  lemma {:induction false} GlueStep(out: seq<Byte>, text: Label, ls: seq<Label>)
    requires text != []
    ensures Glue(out, [text] + ls) == Glue(OneMore(out, text), ls)
  {
    assert ([text] + ls)[1..] == ls;
  }

  lemma {:induction false} NameSkips(pkt: seq<Byte>, off: nat, parts: seq<Part>)
    requires NameAt(pkt, off, parts)
    ensures off < Skip(pkt, off) <= |pkt|
    decreases |parts|
  {
    if parts != [] && parts[0].Text? { NameSkips(pkt, off + 1 + |parts[0].text|, parts[1..]); }
  }

  /** Reading one label that fits. */
  lemma {:induction false} DecodeLabel(
    pkt: seq<Byte>, beyond: Byte, pos: nat, jumps: nat, saved: int, out: seq<Byte>, room: nat, text: Label)
    requires TextAt(pkt, pos, text) && jumps < MAX_JUMPS
    requires |out| <= room && |OneMore(out, text)| <= room
    ensures Decode(pkt, beyond, pos, jumps, saved, out, room)
         == Decode(pkt, beyond, pos + 1 + |text|, jumps, saved, OneMore(out, text), room)
  {
    var dotted := Dotted(out, room);
    assert Copied(pkt, pos, |dotted|, room) == |text|;
    assert dotted + text == OneMore(out, text);
  }

  /** The decoder's answer when `ls` is still to come and all of it fits. */
  function Answer(pkt: seq<Byte>, pos: nat, saved: int, out: seq<Byte>, ls: seq<Label>): Decoded {
    Decoded(Glue(out, ls), if saved >= 0 then saved else Skip(pkt, pos))
  }

  lemma {:induction false} AnswerText(pkt: seq<Byte>, pos: nat, saved: int, out: seq<Byte>, text: Label, ls: seq<Label>)
    requires pos < |pkt| && 1 <= |text| <= 63 && pkt[pos] == |text|
    ensures Answer(pkt, pos, saved, out, [text] + ls) == Answer(pkt, pos + 1 + |text|, saved, OneMore(out, text), ls)
    ensures |OneMore(out, text)| <= |Glue(out, [text] + ls)|
  {
    GlueStep(out, text, ls);
  }

  lemma {:induction false} DecodeText(
    pkt: seq<Byte>, beyond: Byte, pos: nat, jumps: nat, saved: int, out: seq<Byte>, room: nat, text: Label,
    ls: seq<Label>)
    requires TextAt(pkt, pos, text) && jumps < MAX_JUMPS && |out| <= room && |OneMore(out, text)| <= room
    requires Decode(pkt, beyond, pos + 1 + |text|, jumps, saved, OneMore(out, text), room)
          == Answer(pkt, pos + 1 + |text|, saved, OneMore(out, text), ls)
    ensures Decode(pkt, beyond, pos, jumps, saved, out, room) == Answer(pkt, pos, saved, out, [text] + ls)
  {
    AnswerText(pkt, pos, saved, out, text, ls);
    DecodeLabel(pkt, beyond, pos, jumps, saved, out, room, text);
  }

  lemma {:induction false} DecodeJump(
    pkt: seq<Byte>, beyond: Byte, pos: nat, jumps: nat, saved: int, out: seq<Byte>, room: nat, ls: seq<Label>)
    requires pos + 1 < |pkt| && pkt[pos] >= JUMP_MARK && jumps < MAX_JUMPS && |out| <= room
    requires var back := if saved < 0 then pos + 2 else saved;
             var target := Target(pkt, pos, beyond);
             Decode(pkt, beyond, target, jumps + 1, back, out, room) == Answer(pkt, target, back, out, ls)
    ensures Decode(pkt, beyond, pos, jumps, saved, out, room) == Answer(pkt, pos, saved, out, ls)
  {}

  lemma {:induction false} DecodeName(
    pkt: seq<Byte>, beyond: Byte, pos: nat, jumps: nat, saved: int, out: seq<Byte>, room: nat, parts: seq<Part>,
    labels: seq<Label>)
    requires NameAt(pkt, pos, parts) && jumps <= MAX_JUMPS && (jumps > 0 ==> saved >= 0)
    requires labels == LabelsWithin(parts, MAX_JUMPS - jumps) && |out| <= room && |Glue(out, labels)| <= room
    ensures Decode(pkt, beyond, pos, jumps, saved, out, room) == Answer(pkt, pos, saved, out, labels)
    decreases |parts|
  {
    if parts != [] && jumps < MAX_JUMPS {
      var rest := parts[1..];
      match parts[0]
      case Text(text) =>
        var ls := LabelsWithin(rest, MAX_JUMPS - jumps);
        assert labels == [text] + ls;
        AnswerText(pkt, pos, saved, out, text, ls);
        DecodeName(pkt, beyond, pos + 1 + |text|, jumps, saved, OneMore(out, text), room, rest, ls);
        DecodeText(pkt, beyond, pos, jumps, saved, out, room, text, ls);
      case Jump(target) =>
        DecodeName(pkt, beyond, target, jumps + 1, if saved < 0 then pos + 2 else saved, out, room, rest, labels);
        DecodeJump(pkt, beyond, pos, jumps, saved, out, room, labels);
    } else {
      DecodeDone(pkt, beyond, pos, jumps, saved, out, room);
    }
  }

  lemma {:induction false} DecodeDone(
    pkt: seq<Byte>, beyond: Byte, pos: nat, jumps: nat, saved: int, out: seq<Byte>, room: nat)
    requires pos < |pkt| && |out| <= room
    requires if jumps < MAX_JUMPS then pkt[pos] == 0 else saved >= 0
    ensures Decode(pkt, beyond, pos, jumps, saved, out, room) == Answer(pkt, pos, saved, out, [])
  {}

  /** Decoding the name at `off` into a buffer of `room + 1` bytes. */
  function DecodeAt(pkt: seq<Byte>, beyond: Byte, off: nat, room: nat): Decoded {
    Decode(pkt, beyond, off, 0, -1, [], room)
  }

  /** The labels in front of the 16th pointer are decoded, and the offset is that of skipping the name. */
  lemma {:induction false} NameDecodes(pkt: seq<Byte>, beyond: Byte, off: nat, room: nat, parts: seq<Part>)
    requires NameAt(pkt, off, parts) && |Joined(LabelsWithin(parts, MAX_JUMPS))| <= room
    ensures DecodeAt(pkt, beyond, off, room) == Decoded(Joined(LabelsWithin(parts, MAX_JUMPS)), Skip(pkt, off))
  {
    DecodeName(pkt, beyond, off, 0, -1, [], room, parts, LabelsWithin(parts, MAX_JUMPS));
  }

  lemma {:induction false} WithinBehind(parts: seq<Part>, j: nat)
    ensures LabelsWithin(parts, j) + LabelsBehind(parts, j) == Labels(parts)
    ensures Pointers(parts) < j ==> LabelsBehind(parts, j) == []
    decreases |parts|
  {
    if parts != [] && j > 0 { WithinBehind(parts[1..], if parts[0].Text? then j else j - 1); }
  }

  predicate NoneEmpty(ls: seq<Label>) { forall i :: 0 <= i < |ls| ==> ls[i] != [] }

  lemma {:induction false} LabelsNonempty(pkt: seq<Byte>, off: nat, parts: seq<Part>)
    requires NameAt(pkt, off, parts)
    ensures NoneEmpty(Labels(parts))
    decreases |parts|
  {
    if parts != [] {
      LabelsNonempty(pkt, match parts[0] case Text(t) => off + 1 + |t| case Jump(t) => t, parts[1..]);
    }
  }

  /** More labels make a longer text. */
  lemma {:induction false} JoinedGrows(ls: seq<Label>, more: seq<Label>)
    requires NoneEmpty(ls + more)
    ensures |Joined(ls)| <= |Joined(ls + more)|
    ensures more != [] ==> |Joined(ls)| < |Joined(ls + more)|
    decreases |ls|
  {
    if ls == [] {
      assert ls + more == more;
      assert more != [] ==> |Joined(more)| >= |more[0]| && (ls + more)[0] != [];
    } else {
      assert (ls + more)[0] == ls[0] && (ls + more)[1..] == ls[1..] + more;
      assert NoneEmpty((ls + more)[1..]);
      JoinedGrows(ls[1..], more);
      if |ls| == 1 && more != [] { assert ls[1..] + more == more; }
    }
  }

  /**
   A name decodes to its labels joined by dots exactly when no label lies behind
   its 16th pointer and the text fits the buffer.
   */
  lemma {:induction false} NameExact(pkt: seq<Byte>, beyond: Byte, off: nat, room: nat, parts: seq<Part>)
    requires NameAt(pkt, off, parts)
    ensures DecodeAt(pkt, beyond, off, room).name == Joined(Labels(parts))
       <==> LabelsBehind(parts, MAX_JUMPS) == [] && |Joined(Labels(parts))| <= room
  {
    var ls, more := LabelsWithin(parts, MAX_JUMPS), LabelsBehind(parts, MAX_JUMPS);
    WithinBehind(parts, MAX_JUMPS);
    LabelsNonempty(pkt, off, parts);
    JoinedGrows(ls, more);
    if |Joined(Labels(parts))| <= room {
      NameDecodes(pkt, beyond, off, room, parts);
      if more == [] { assert ls + more == ls; }
    }
  }

  /** The promise for ordinary names: at most 15 pointers, and room for the text. */
  lemma {:induction false} NameReads(pkt: seq<Byte>, beyond: Byte, off: nat, room: nat, parts: seq<Part>)
    requires NameAt(pkt, off, parts) && Pointers(parts) <= 15 && |Joined(Labels(parts))| <= room
    ensures DecodeAt(pkt, beyond, off, room) == Decoded(Joined(Labels(parts)), Skip(pkt, off))
    ensures off < Skip(pkt, off) <= |pkt|
  {
    WithinBehind(parts, MAX_JUMPS);
    assert LabelsWithin(parts, MAX_JUMPS) + [] == LabelsWithin(parts, MAX_JUMPS);
    NameDecodes(pkt, beyond, off, room, parts);
    NameSkips(pkt, off, parts);
  }

  /** A pointer to itself, the shortest cycle: sixteen jumps, no text, and the offset behind the pointer. */
  lemma {:induction false} CycleStops(
    pkt: seq<Byte>, beyond: Byte, pos: nat, jumps: nat, saved: int, out: seq<Byte>, room: nat)
    requires pos < |pkt| && pkt[pos] >= JUMP_MARK && Target(pkt, pos, beyond) == pos
    requires |out| <= room && jumps <= MAX_JUMPS
    requires jumps > 0 ==> saved >= 0
    ensures Decode(pkt, beyond, pos, jumps, saved, out, room) == Decoded(out, if saved >= 0 then saved else pos + 2)
    decreases MAX_JUMPS - jumps
  {
    if jumps < MAX_JUMPS { CycleStops(pkt, beyond, pos, jumps + 1, if saved < 0 then pos + 2 else saved, out, room); }
  }

  // ----- names without compression -----

  predicate Encodable(ls: seq<Label>) { forall i :: 0 <= i < |ls| ==> 1 <= |ls[i]| <= 63 }

  function Encode(ls: seq<Label>): seq<Byte>
    requires Encodable(ls)
  {
    if ls == [] then [0] else [|ls[0]|] + ls[0] + Encode(ls[1..])
  }

  function Texts(ls: seq<Label>): seq<Part> { if ls == [] then [] else [Text(ls[0])] + Texts(ls[1..]) }

  /** An encoded label at `off`, and what is encoded behind it. */
  lemma {:induction false} EncodedText(pkt: seq<Byte>, off: nat, text: Label, rest: seq<Byte>)
    requires 1 <= |text| <= 63 && off <= |pkt| && [|text|] + text + rest <= pkt[off..]
    ensures TextAt(pkt, off, text) && rest <= pkt[off + 1 + |text|..]
  {
    var e, n := [|text|] + text + rest, |text|;
    assert pkt[off..][..|e|] == e;
    assert pkt[off] == pkt[off..][..|e|][0] && e[1..n + 1] == text;
    assert pkt[off + 1..off + 1 + n] == pkt[off..][..|e|][1..n + 1];
    assert pkt[off + 1 + n..][..|rest|] == pkt[off..][..|e|][n + 1..] == rest;
  }

  lemma {:induction false} NameCons(pkt: seq<Byte>, off: nat, text: Label, parts: seq<Part>)
    requires TextAt(pkt, off, text) && NameAt(pkt, off + 1 + |text|, parts)
    ensures NameAt(pkt, off, [Text(text)] + parts) && Skip(pkt, off) == Skip(pkt, off + 1 + |text|)
    ensures Labels([Text(text)] + parts) == [text] + Labels(parts) && Pointers([Text(text)] + parts) == Pointers(parts)
  {
    assert ([Text(text)] + parts)[1..] == parts;
  }

  lemma {:induction false} EncodeIsName(pkt: seq<Byte>, off: nat, ls: seq<Label>)
    requires Encodable(ls) && off <= |pkt| && Encode(ls) <= pkt[off..]
    ensures NameAt(pkt, off, Texts(ls)) && Skip(pkt, off) == off + |Encode(ls)|
    ensures Labels(Texts(ls)) == ls && Pointers(Texts(ls)) == 0
    decreases |ls|
  {
    if ls == [] {
      assert pkt[off] == pkt[off..][0] == 0;
    } else {
      var text, rest := ls[0], ls[1..];
      EncodedText(pkt, off, text, Encode(rest));
      EncodeIsName(pkt, off + 1 + |text|, rest);
      NameCons(pkt, off, text, Texts(rest));
      assert ls == [text] + rest;
    }
  }

  /** Decoding undoes encoding, wherever in a packet the name stands. */
  lemma {:induction false} EncodeDecodes(pkt: seq<Byte>, beyond: Byte, off: nat, room: nat, ls: seq<Label>)
    requires Encodable(ls) && off <= |pkt| && Encode(ls) <= pkt[off..] && |Joined(ls)| <= room
    ensures DecodeAt(pkt, beyond, off, room) == Decoded(Joined(ls), off + |Encode(ls)|)
  {
    EncodeIsName(pkt, off, ls);
    NameReads(pkt, beyond, off, room, Texts(ls));
  }
}
