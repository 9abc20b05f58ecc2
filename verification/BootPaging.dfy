/**
 Page tables in memory, the processor's 4-level walk, and the contents that
 boot/bootloader.c gives its tables, written out as functions of the pool
 address, the kernel image and the firmware's answers.
 */
module BootPaging {
  import opened Bytes

  const PAGE := 4096
  const ENTRIES := 512
  const POOL_PAGES := 128
  const FIXED_PAGES := 26

  const MIB2 := 0x20_0000
  const GIB := 0x4000_0000
  const GIB512 := 0x80_0000_0000
  const PHYS_LIMIT := 0x10_0000_0000_0000         // 52 physical address bits
  const VIRT_LIMIT := 0x1_0000_0000_0000_0000
  const HALF := 0x8000_0000_0000                  // size of each canonical half
  const PHYS_MAP_BASE := 0xFFFF_8800_0000_0000
  const KERNEL_OFFSET := 0xFFFF_FFFF_8000_0000

  const WINDOW_TABLES := 32
  const WINDOW_PAGES := 16384                     // 64 MiB in 4 KiB pages

  const RWX := 3                                  // PAGE_PRESENT | PAGE_WRITABLE
  const PS := 128                                 // PAGE_SIZE

  type Table = t: seq<nat> | |t| == ENTRIES witness seq(ENTRIES, _ => 0)
  /** Physical memory, as far as anyone has been given it: whole pages by address. */
  type Memory = map<nat, Table>

  // ----- or-ing flags into an address -----

  /** Bitwise or. */
  function Or(a: nat, b: nat): nat {
    if a == 0 || b == 0 then a + b else Max(a % 2, b % 2) + 2 * Or(a / 2, b / 2)
  }

  function Shift(a: nat, n: nat): nat { if n == 0 then a else 2 * Shift(a, n - 1) }

  predicate Narrow(b: nat, n: nat) { if n == 0 then b == 0 else Narrow(b / 2, n - 1) }

  lemma {:induction false} OrShifted(a: nat, b: nat, n: nat)
    requires Narrow(b, n)
    ensures Or(Shift(a, n), b) == Shift(a, n) + b
  {
    if n > 0 {
      OrShifted(a, b / 2, n - 1);
      var x := Shift(a, n);
      assert x / 2 == Shift(a, n - 1) && x % 2 == 0;
    }
  }

  lemma {:induction false} NarrowBelow(b: nat, n: nat)
    requires b < Shift(1, n)
    ensures Narrow(b, n)
  {
    if n > 0 { NarrowBelow(b / 2, n - 1); }
  }

  lemma {:induction false} ShiftPage(a: nat)
    ensures Shift(a, 12) == PAGE * a
  {
    assert Shift(a, 1) == 2 * a;
    assert Shift(a, 3) == 8 * a;
    assert Shift(a, 5) == 32 * a;
    assert Shift(a, 7) == 128 * a;
    assert Shift(a, 9) == 512 * a;
    assert Shift(a, 11) == 2048 * a;
  }

  /** Or-ing flag bits into a page-aligned address is adding them. */
  lemma {:induction false} OrIsSum(a: nat, f: nat)
    requires a % PAGE == 0 && f < PAGE
    ensures Or(a, f) == a + f
  {
    ShiftPage(1);
    NarrowBelow(f, 12);
    ShiftPage(a / PAGE);
    OrShifted(a / PAGE, f, 12);
  }

  // ----- the walk (Intel SDM volume 3A, section 4.5) -----

  predicate Present(e: nat) { e % 2 == 1 }
  predicate Large(e: nat) { e / 128 % 2 == 1 }
  /** Bits 51..12 of an entry: the next table or a 4 KiB frame. */
  function Target(e: nat): nat { e / PAGE * PAGE % PHYS_LIMIT }
  /** Bits 51..21: a 2 MiB frame; bits 51..30: a 1 GiB frame. */
  function Target2M(e: nat): nat { e / MIB2 * MIB2 % PHYS_LIMIT }
  function Target1G(e: nat): nat { e / GIB * GIB % PHYS_LIMIT }

  predicate Canonical(v: nat) { v < HALF || VIRT_LIMIT - HALF <= v < VIRT_LIMIT }

  type Index = x: int | 0 <= x < ENTRIES

  /** An address as the processor takes it apart: an index per level, and the offset in a page of each size. */
  datatype Parts = Parts(i4: Index, i3: Index, i2: Index, i1: Index, in4K: nat, in2M: nat, in1G: nat)

  function PartsOf(v: nat): Parts {
    Parts(v / GIB512 % ENTRIES, v / GIB % ENTRIES, v / MIB2 % ENTRIES, v / PAGE % ENTRIES, v % PAGE, v % MIB2, v % GIB)
  }

  function Walk(mem: Memory, cr3: nat, v: nat): Option<nat> {
    if !Canonical(v) then None else Walk4(mem, cr3, PartsOf(v))
  }

  function Walk4(mem: Memory, t: nat, p: Parts): Option<nat> {
    if t !in mem then None
    else
      var e := mem[t][p.i4];
      if !Present(e) then None else Walk3(mem, Target(e), p)
  }

  function Walk3(mem: Memory, t: nat, p: Parts): Option<nat> {
    if t !in mem then None
    else
      var e := mem[t][p.i3];
      if !Present(e) then None
      else if Large(e) then Some(Target1G(e) + p.in1G)
      else Walk2(mem, Target(e), p)
  }

  function Walk2(mem: Memory, t: nat, p: Parts): Option<nat> {
    if t !in mem then None
    else
      var e := mem[t][p.i2];
      if !Present(e) then None
      else if Large(e) then Some(Target2M(e) + p.in2M)
      else Walk1(mem, Target(e), p)
  }

  function Walk1(mem: Memory, t: nat, p: Parts): Option<nat> {
    if t !in mem then None
    else Leaf(mem[t][p.i1], p.in4K)
  }

  /** What the last entry of a walk gives. */
  function Leaf(e: nat, offset: nat): Option<nat> {
    if Present(e) then Some(Target(e) + offset) else None
  }

  // ----- the firmware's answers -----

  /** One answer of AllocatePages for a single page. */
  datatype Grant = Denied | Granted(addr: nat)

  /** Pages of the kernel image. */
  function KernelPages(size: nat): nat { (size + 4095) / PAGE }

  /**
   What the UEFI specification (section 7.2) promises: pages are aligned, and
   disjoint from each other and from everything handed out before.
   */
  ghost predicate Honest(fw: nat -> Grant, base: nat, kphys: nat, kp: nat) {
    && base % PAGE == 0 && 0 < base && base + POOL_PAGES * PAGE <= PHYS_LIMIT
    && kphys % PAGE == 0 && kphys + kp * PAGE <= PHYS_LIMIT
    && (kphys + kp * PAGE <= base || base + POOL_PAGES * PAGE <= kphys)
    && (forall n :: fw(n).Granted? ==>
          var a := fw(n).addr;
          && a % PAGE == 0 && a + PAGE <= PHYS_LIMIT
          && (a + PAGE <= base || base + POOL_PAGES * PAGE <= a)
          && (a + PAGE <= kphys || kphys + kp * PAGE <= a))
    && (forall m, n :: m < n && fw(m).Granted? && fw(n).Granted? ==> fw(m).addr != fw(n).addr)
  }

  // ----- contents of the tables -----

  /** The `n`-th page of the pool. */
  function Pool(base: nat, n: nat): nat { base + n * PAGE }

  /** A non-leaf entry that points at the `n`-th page of the pool. */
  function Link(base: nat, n: nat): (e: nat) { Pool(base, n) + RWX }

  function ZeroTable(): (t: Table)
    ensures forall i :: 0 <= i < ENTRIES ==> t[i] == 0
  {
    seq(ENTRIES, i requires 0 <= i < ENTRIES => 0)
  }

  /** 2 MiB pages over the `g`-th GiB of physical memory. */
  function LargeTable(g: nat): (t: Table)
    ensures forall i :: 0 <= i < ENTRIES ==> t[i] == g * GIB + i * MIB2 + RWX + PS
  {
    seq(ENTRIES, i requires 0 <= i < ENTRIES =>
      g * GIB + i * MIB2 + RWX + PS)
  }

  function LinkEntry(base: nat, at: nat, n: nat, first: nat, i: nat): nat {
    if at <= i < at + n then Link(base, first + (i - at)) else 0
  }

  /** Links to `n` consecutive pool pages, from pool page `first`, in entries `at .. at + n`. */
  function LinkTable(base: nat, at: nat, n: nat, first: nat): (t: Table)
    ensures forall i :: 0 <= i < ENTRIES ==> t[i] == LinkEntry(base, at, n, first, i)
  {
    seq(ENTRIES, i requires 0 <= i < ENTRIES => LinkEntry(base, at, n, first, i))
  }

  function Pml4Entry(base: nat, i: nat): nat {
    if i == 0 then Link(base, 1) else if i == 272 then Link(base, 9) else if i == 511 then Link(base, 6) else 0
  }

  function Pml4Table(base: nat): (t: Table)
    ensures forall i :: 0 <= i < ENTRIES ==> t[i] == Pml4Entry(base, i)
  {
    seq(ENTRIES, i requires 0 <= i < ENTRIES => Pml4Entry(base, i))
  }

  function PdHighEntry(base: nat, i: nat): nat {
    if i == 0 then Link(base, 8) else if i < WINDOW_TABLES then Link(base, 25 + i) else 0
  }

  /** The directory over the kernel window: its first table is pool page 8, the others follow page 25. */
  function PdHighTable(base: nat): (t: Table)
    ensures forall i :: 0 <= i < ENTRIES ==> t[i] == PdHighEntry(base, i)
  {
    seq(ENTRIES, i requires 0 <= i < ENTRIES => PdHighEntry(base, i))
  }

  // ----- the kernel window -----

  /** How many calls from number `c` on succeed in a row, at most `n`. */
  function Grants(fw: nat -> Grant, c: nat, n: nat): (r: nat)
    ensures r <= n
    ensures forall j :: c <= j < c + r ==> fw(j).Granted?
    ensures r < n ==> fw(c + r).Denied?
    decreases n
  {
    if n == 0 || fw(c).Denied? then 0 else 1 + Grants(fw, c + 1, n - 1)
  }

  /** How many entries of a table map kernel image pages, `pm` pages being mapped already. */
  function KernelPart(kp: nat, pm: nat): (r: nat)
    ensures r <= ENTRIES
  {
    Min(ENTRIES, Max(0, kp - pm))
  }

  /** What entry `i` receives when the loop gets there, `k` entries being for kernel pages. */
  function Cell(fw: nat -> Grant, kphys: nat, pm: nat, c: nat, k: nat, i: nat): nat {
    if i < k then kphys + (pm + i) * PAGE + RWX
    else match fw(c + i - k) case Granted(a) => a + RWX case Denied => 0
  }

  function WindowTableEntry(fw: nat -> Grant, kphys: nat, kp: nat, pm: nat, c: nat, i: nat): nat
    requires i < ENTRIES
  {
    var k := KernelPart(kp, pm);
    if i < k + Grants(fw, c, ENTRIES - k) then Cell(fw, kphys, pm, c, k, i) else 0
  }

  /** One table of the window: kernel pages, then granted pages up to the first refusal. */
  function WindowTable(fw: nat -> Grant, kphys: nat, kp: nat, pm: nat, c: nat): (t: Table)
    ensures forall i :: 0 <= i < ENTRIES ==> t[i] == WindowTableEntry(fw, kphys, kp, pm, c, i)
  {
    seq(ENTRIES, i requires 0 <= i < ENTRIES => WindowTableEntry(fw, kphys, kp, pm, c, i))
  }

  /** Where the mapping loop stands before table `k`: pages counted as mapped, calls made. */
  datatype Progress = Progress(pm: nat, calls: nat)

  function After(fw: nat -> Grant, kp: nat, p: Progress): Progress {
    var k := KernelPart(kp, p.pm);
    var g := Grants(fw, p.calls, ENTRIES - k);
    Progress(p.pm + k + g, p.calls + g + (if k + g < ENTRIES then 1 else 0))
  }

  /** The first table counts as fully mapped whatever happened in it. */
  function ProgressAt(fw: nat -> Grant, kp: nat, k: nat): Progress {
    if k == 0 then Progress(0, 0)
    else
      var p := After(fw, kp, ProgressAt(fw, kp, k - 1));
      if k == 1 then Progress(ENTRIES, p.calls) else p
  }

  function Window(fw: nat -> Grant, kphys: nat, kp: nat, k: nat): Table {
    var p := ProgressAt(fw, kp, k);
    WindowTable(fw, kphys, kp, p.pm, p.calls)
  }

  /** The pool page that holds window table `k`. */
  function WindowPage(k: nat): nat { if k == 0 then 8 else 25 + k }

  /** All tables are in place. */
  ghost predicate TablesBuilt(mem: Memory, base: nat, fw: nat -> Grant, kphys: nat, kp: nat) {
    && (forall n :: 0 <= n < FIXED_PAGES + WINDOW_TABLES - 1 ==> Pool(base, n) in mem)
    && mem[Pool(base, 0)] == Pml4Table(base)
    && mem[Pool(base, 1)] == LinkTable(base, 0, 4, 2)
    && (forall n :: 2 <= n < 6 ==> mem[Pool(base, n)] == LargeTable(n - 2))
    && mem[Pool(base, 6)] == LinkTable(base, 510, 1, 7)
    && mem[Pool(base, 7)] == PdHighTable(base)
    && mem[Pool(base, 9)] == LinkTable(base, 0, 16, 10)
    && (forall n :: 10 <= n < 26 ==> mem[Pool(base, n)] == LargeTable(n - 10))
    && (forall k :: 0 <= k < WINDOW_TABLES ==> mem[Pool(base, WindowPage(k))] == Window(fw, kphys, kp, k))
  }
}
