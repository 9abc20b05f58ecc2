/** The sort orders of user/ls.c: six comparisons under reverse and directories-first. */
module LsOrder {
  import opened Bytes
  import opened LsVersion

  const DOT: Byte := 46

  /** A directory entry; `isDir` means its status is known and says directory. */
  datatype Entry = Entry(name: seq<Byte>, size: int, time: nat, isDir: bool)

  datatype Mode = ByName | BySize | ByTime | ByVersion | ByExtension | ByWidth

  function StrCmp(a: seq<Byte>, b: seq<Byte>): int
    decreases |a|
  {
    if a != [] && b != [] && a[0] == b[0] then StrCmp(a[1..], b[1..]) else At(a, 0) - At(b, 0)
  }

  /** From the last dot on, or nothing. */
  function Extension(name: seq<Byte>): (r: seq<Byte>)
    ensures |r| <= |name| && r == name[|name| - |r|..]
    ensures r == [] ==> DOT !in name
    ensures r != [] ==> r[0] == DOT && DOT !in r[1..]
  {
    if name == [] then []
    else
      var rest := Extension(name[1..]);
      if rest != [] then rest else if name[0] == DOT then name else []
  }

  function Then(first: int, second: int): int { if first != 0 then first else second }

  function Descending(x: int, y: int): int { if x > y then -1 else if x < y then 1 else 0 }

  function Base(mode: Mode, a: Entry, b: Entry): int {
    match mode
    case ByName => StrCmp(a.name, b.name)
    case BySize => Then(Descending(a.size, b.size), StrCmp(a.name, b.name))
    case ByTime => Then(Descending(a.time, b.time), StrCmp(a.name, b.name))
    case ByVersion => VersionCompare(a.name, b.name)
    case ByExtension => Then(StrCmp(Extension(a.name), Extension(b.name)), StrCmp(a.name, b.name))
    case ByWidth => Then(|a.name| - |b.name|, StrCmp(a.name, b.name))
  }

  datatype Options = Options(mode: Mode, groupDirs: bool, reverse: bool)

  function Compare(o: Options, a: Entry, b: Entry): int {
    if o.groupDirs && a.isDir && !b.isDir then -1
    else if o.groupDirs && !a.isDir && b.isDir then 1
    else if o.reverse then -Base(o.mode, a, b)
    else Base(o.mode, a, b)
  }

  // ----- each is a consistent order -----

  lemma {:induction false} StrCmpOrder(a: seq<Byte>, b: seq<Byte>, c: seq<Byte>)
    requires CString(a) && CString(b) && CString(c)
    ensures StrCmp(a, b) == -StrCmp(b, a)
    ensures StrCmp(a, b) == 0 <==> a == b
    ensures StrCmp(a, b) <= 0 && StrCmp(b, c) <= 0 ==> StrCmp(a, c) <= 0
    decreases |a| + |b|
  {
    if a != [] && b != [] && a[0] == b[0] {
      StrCmpOrder(a[1..], b[1..], if c == [] then [] else c[1..]);
      assert a == [a[0]] + a[1..] && b == [b[0]] + b[1..];
    }
  }

  /** Every base comparison is a total order in which only equal names tie. */
  lemma {:induction false} BaseOrder(mode: Mode, a: Entry, b: Entry, c: Entry)
    requires CString(a.name) && CString(b.name) && CString(c.name)
    ensures Base(mode, a, b) < 0 <==> Base(mode, b, a) > 0
    ensures Base(mode, a, b) == 0 ==> a.name == b.name
    ensures Base(mode, a, b) <= 0 && Base(mode, b, c) <= 0 ==> Base(mode, a, c) <= 0
  {
    if mode == ByVersion {
      VersionOrder(a.name, b.name, c.name);
    } else {
      NamesOrder(a.name, b.name, c.name);
      if mode == ByExtension { NamesOrder(Extension(a.name), Extension(b.name), Extension(c.name)); }
    }
  }

  lemma {:induction false} NamesOrder(a: seq<Byte>, b: seq<Byte>, c: seq<Byte>)
    requires CString(a) && CString(b) && CString(c)
    ensures StrCmp(a, b) == -StrCmp(b, a)
    ensures StrCmp(a, b) == 0 <==> a == b
    ensures StrCmp(b, c) == 0 <==> b == c
    ensures StrCmp(a, c) == 0 <==> a == c
    ensures StrCmp(a, b) <= 0 && StrCmp(b, c) <= 0 ==> StrCmp(a, c) <= 0
  {
    StrCmpOrder(a, b, c);
    StrCmpOrder(b, c, a);
    StrCmpOrder(a, c, b);
  }

  /** Under every option the comparison is a total order in which only equal names tie. */
  lemma {:induction false} CompareOrder(o: Options, a: Entry, b: Entry, c: Entry)
    requires CString(a.name) && CString(b.name) && CString(c.name)
    ensures Compare(o, a, b) < 0 <==> Compare(o, b, a) > 0
    ensures Compare(o, a, b) == 0 ==> a.name == b.name
    ensures Compare(o, a, b) <= 0 && Compare(o, b, c) <= 0 ==> Compare(o, a, c) <= 0
  {
    BaseOrder(o.mode, a, b, c);
    BaseOrder(o.mode, c, b, a);
    BaseOrder(o.mode, b, a, c);
    BaseOrder(o.mode, b, c, a);
    BaseOrder(o.mode, a, c, b);
  }

  // ----- which order each is -----

  predicate DiffersAt(a: seq<Byte>, b: seq<Byte>, k: nat) {
    && k <= |a| && k < |b| && a[..k] == b[..k]
    && (k == |a| || a[k] < b[k])
  }

  /** The dictionary order of names, by byte values. */
  ghost predicate DictBefore(a: seq<Byte>, b: seq<Byte>) { exists k: nat :: DiffersAt(a, b, k) }

  lemma {:induction false} DiffersTail(a: seq<Byte>, b: seq<Byte>, k: nat)
    requires a != [] && b != [] && a[0] == b[0]
    ensures DiffersAt(a[1..], b[1..], k) <==> DiffersAt(a, b, k + 1)
  {
    if k < |a| && k < |b| {
      assert a[..k + 1] == [a[0]] + a[1..][..k] && b[..k + 1] == [b[0]] + b[1..][..k];
      assert a[1..][..k] == a[..k + 1][1..] && b[1..][..k] == b[..k + 1][1..];
    }
  }

  lemma {:induction false} SameFirstByte(a: seq<Byte>, b: seq<Byte>, k: nat)
    requires DiffersAt(a, b, k) && k > 0
    ensures a != [] && b != [] && a[0] == b[0]
  {
    assert a[0] == a[..k][0] && b[0] == b[..k][0];
  }

  lemma {:induction false} StrCmpMeaning(a: seq<Byte>, b: seq<Byte>)
    requires CString(a) && CString(b)
    ensures StrCmp(a, b) < 0 <==> DictBefore(a, b)
    decreases |a|
  {
    if a != [] && b != [] && a[0] == b[0] {
      StrCmpMeaning(a[1..], b[1..]);
      if DictBefore(a[1..], b[1..]) {
        var k: nat :| DiffersAt(a[1..], b[1..], k);
        DiffersTail(a, b, k);
      }
      if DictBefore(a, b) {
        var k: nat :| DiffersAt(a, b, k);
        assert k > 0;
        DiffersTail(a, b, k - 1);
      }
    } else {
      if StrCmp(a, b) < 0 { assert DiffersAt(a, b, 0); }
      if DictBefore(a, b) {
        var k: nat :| DiffersAt(a, b, k);
        if k > 0 { SameFirstByte(a, b, k); }
      }
    }
  }

  /** What each sort option promises: larger, newer or shorter first, ties by name. */
  ghost predicate Precedes(mode: Mode, a: Entry, b: Entry) {
    match mode
    case ByName => DictBefore(a.name, b.name)
    case BySize => a.size > b.size || (a.size == b.size && DictBefore(a.name, b.name))
    case ByTime => a.time > b.time || (a.time == b.time && DictBefore(a.name, b.name))
    case ByVersion => Before(Tokens(a.name), Tokens(b.name))
    case ByExtension =>
      var x, y := Extension(a.name), Extension(b.name);
      DictBefore(x, y) || (x == y && DictBefore(a.name, b.name))
    case ByWidth => |a.name| < |b.name| || (|a.name| == |b.name| && DictBefore(a.name, b.name))
  }

  lemma {:induction false} BaseMeaning(mode: Mode, a: Entry, b: Entry)
    requires CString(a.name) && CString(b.name)
    ensures Base(mode, a, b) < 0 <==> Precedes(mode, a, b)
  {
    if mode == ByVersion {
      VersionMeaning(a.name, b.name);
    } else {
      StrCmpMeaning(a.name, b.name);
      StrCmpMeaning(Extension(a.name), Extension(b.name));
      StrCmpOrder(Extension(a.name), Extension(b.name), []);
    }
  }

  // ----- what this means for a listing -----

  predicate Sorted(o: Options, es: seq<Entry>) {
    forall i, j :: 0 <= i < j < |es| ==> Compare(o, es[i], es[j]) <= 0
  }

  /** The entries of one directory: C strings, all different. */
  predicate Names(es: seq<Entry>) {
    && (forall i :: 0 <= i < |es| ==> CString(es[i].name))
    && (forall i, j :: 0 <= i < j < |es| ==> es[i].name != es[j].name)
  }

  lemma {:induction false} FirstOf(o: Options, es: seq<Entry>, e: Entry)
    requires Names(es) && Sorted(o, es) && e in es
    ensures Compare(o, es[0], e) <= 0
  {
    CompareOrder(o, es[0], es[0], es[0]);
  }

  lemma {:induction false} NamesTell(es: seq<Entry>, a: Entry, b: Entry)
    requires Names(es) && a in es && b in es && a.name == b.name
    ensures a == b
  {}

  lemma {:induction false} SameFirst(o: Options, es: seq<Entry>, fs: seq<Entry>)
    requires Names(es) && Names(fs) && Sorted(o, es) && Sorted(o, fs) && es != [] && fs != []
    requires es[0] in fs && fs[0] in es
    ensures es[0] == fs[0]
  {
    FirstOf(o, es, fs[0]);
    FirstOf(o, fs, es[0]);
    CompareOrder(o, es[0], fs[0], fs[0]);
    NamesTell(es, es[0], fs[0]);
  }

  lemma {:induction false} TailsMatch(es: seq<Entry>, fs: seq<Entry>)
    requires es != [] && fs != [] && es[0] == fs[0] && multiset(es) == multiset(fs)
    ensures multiset(es[1..]) == multiset(fs[1..])
  {
    assert es == [es[0]] + es[1..] && fs == [fs[0]] + fs[1..];
    assert multiset(es[1..]) == multiset(es) - multiset{es[0]};
  }

  lemma {:induction false} FirstsShared(es: seq<Entry>, fs: seq<Entry>)
    requires es != [] && multiset(es) == multiset(fs)
    ensures fs != [] && es[0] in fs && fs[0] in es
  {
    assert es[0] in multiset(fs);
    assert fs[0] in multiset(es);
  }

  /** A directory has exactly one sorted listing, whatever sorting algorithm produced it. */
  lemma {:induction false} SortedUnique(o: Options, es: seq<Entry>, fs: seq<Entry>)
    requires Names(es) && Names(fs) && Sorted(o, es) && Sorted(o, fs) && multiset(es) == multiset(fs)
    ensures es == fs
    decreases |es|
  {
    if es == [] {
      if fs != [] { FirstsShared(fs, es); }
    } else {
      FirstsShared(es, fs);
      SameFirst(o, es, fs);
      TailsMatch(es, fs);
      SortedUnique(o, es[1..], fs[1..]);
      assert es == [es[0]] + es[1..] && fs == [fs[0]] + fs[1..];
    }
  }

  /** Directories-first survives reversal: no directory stands behind another entry. */
  lemma {:induction false} DirsFirst(o: Options, es: seq<Entry>, i: nat, j: nat)
    requires Sorted(o, es) && o.groupDirs && i < j < |es| && es[j].isDir
    ensures es[i].isDir
  {
    assert Compare(o, es[i], es[j]) <= 0;
  }

  function Reversed(es: seq<Entry>): seq<Entry> { seq(|es|, i requires 0 <= i < |es| => es[|es| - 1 - i]) }

  /** Without grouping, the reversed listing is the listing read backwards. */
  lemma {:induction false} ReverseMirrors(o: Options, es: seq<Entry>)
    requires Names(es) && !o.groupDirs && Sorted(o.(reverse := false), es)
    ensures Sorted(o.(reverse := true), Reversed(es))
  {
    forall i, j | 0 <= i < j < |es|
      ensures Compare(o.(reverse := true), Reversed(es)[i], Reversed(es)[j]) <= 0
    {
      var a, b := es[|es| - 1 - j], es[|es| - 1 - i];
      assert Compare(o.(reverse := false), a, b) <= 0;
      BaseOrder(o.mode, a, b, b);
      BaseOrder(o.mode, b, a, a);
    }
  }
}
