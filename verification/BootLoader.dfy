/** The loader's paging code of boot/bootloader.c: pool allocator and table setup. */
module BootLoader {
  import opened Bytes
  import opened BootPaging

  /** Pages of the pool other than `skip` hold what they held. */
  ghost predicate PoolKept(before: Memory, after: Memory, base: nat, skip: set<nat>) {
    forall n :: 0 <= n < POOL_PAGES && n !in skip && Pool(base, n) in before ==>
      Pool(base, n) in after && after[Pool(base, n)] == before[Pool(base, n)]
  }

  lemma {:induction false} LinkGrow(base: nat, at: nat, n: nat, first: nat)
    requires at + n < ENTRIES
    ensures LinkTable(base, at, n, first)[at + n := Link(base, first + n)] == LinkTable(base, at, n + 1, first)
  {}

  lemma {:induction false} GrantsExact(fw: nat -> Grant, c: nat, n: nat, r: nat)
    requires r <= n && (forall j :: c <= j < c + r ==> fw(j).Granted?) && (r < n ==> fw(c + r).Denied?)
    ensures Grants(fw, c, n) == r
  {}

  /** What entry `j` of a window table receives when the loop gets there. */
  function Filler(fw: nat -> Grant, kphys: nat, kp: nat, p: Progress, j: nat): nat {
    Cell(fw, kphys, p.pm, p.calls, KernelPart(kp, p.pm), j)
  }

  /** The first `i` entries of a window table are filled in, every call made for them having succeeded. */
  ghost predicate FilledTo(t: Table, fw: nat -> Grant, kphys: nat, kp: nat, p: Progress, i: nat) {
    && i <= ENTRIES
    && (forall c :: p.calls <= c < p.calls + i - KernelPart(kp, p.pm) ==> fw(c).Granted?)
    && forall j :: 0 <= j < ENTRIES ==> t[j] == if j < i then Filler(fw, kphys, kp, p, j) else 0
  }

  /** The table is finished when it is full or the next call is refused. */
  lemma {:induction false} WindowDone(t: Table, fw: nat -> Grant, kphys: nat, kp: nat, p: Progress, i: nat)
    requires FilledTo(t, fw, kphys, kp, p, i)
    requires var k := KernelPart(kp, p.pm); i == ENTRIES || (k <= i && fw(p.calls + i - k).Denied?)
    ensures t == WindowTable(fw, kphys, kp, p.pm, p.calls)
    ensures After(fw, kp, p)
         == Progress(p.pm + i, p.calls + Max(0, i - KernelPart(kp, p.pm)) + (if i < ENTRIES then 1 else 0))
  {
    var k := KernelPart(kp, p.pm);
    GrantsExact(fw, p.calls, ENTRIES - k, i - k);
    WindowFilled(t, fw, kphys, kp, p, i);
  }

  lemma {:induction false} FilledEntry(fw: nat -> Grant, kphys: nat, kp: nat, p: Progress, i: nat, j: nat, k: nat)
    requires k == KernelPart(kp, p.pm) <= i && Grants(fw, p.calls, ENTRIES - k) == i - k
    requires j < ENTRIES
    ensures WindowTableEntry(fw, kphys, kp, p.pm, p.calls, j) == if j < i then Filler(fw, kphys, kp, p, j) else 0
  {}

  lemma {:induction false} WindowFilled(t: Table, fw: nat -> Grant, kphys: nat, kp: nat, p: Progress, i: nat)
    requires FilledTo(t, fw, kphys, kp, p, i)
    requires var k := KernelPart(kp, p.pm); k <= i && Grants(fw, p.calls, ENTRIES - k) == i - k
    ensures t == WindowTable(fw, kphys, kp, p.pm, p.calls)
  {
    var w := WindowTable(fw, kphys, kp, p.pm, p.calls);
    forall j | 0 <= j < ENTRIES ensures t[j] == w[j] { FilledEntry(fw, kphys, kp, p, i, j, KernelPart(kp, p.pm)); }
  }

  lemma {:induction false} FillStep(t: Table, fw: nat -> Grant, kphys: nat, kp: nat, p: Progress, i: nat)
    requires FilledTo(t, fw, kphys, kp, p, i) && i < ENTRIES
    requires var k := KernelPart(kp, p.pm); i < k || fw(p.calls + i - k).Granted?
    ensures FilledTo(t[i := Filler(fw, kphys, kp, p, i)], fw, kphys, kp, p, i + 1)
  {}

  ghost predicate HasPool(mem: Memory, base: nat) {
    forall n :: 0 <= n < POOL_PAGES ==> Pool(base, n) in mem
  }

  /** The pool as a sequence of tables. */
  ghost function PoolOf(mem: Memory, base: nat): (r: seq<Table>)
    requires HasPool(mem, base)
    ensures |r| == POOL_PAGES && forall n :: 0 <= n < POOL_PAGES ==> r[n] == mem[Pool(base, n)]
  {
    seq(POOL_PAGES, n requires 0 <= n < POOL_PAGES => mem[Pool(base, n)])
  }

  function DirectoryEntry(base: nat, k: nat, i: nat): nat { if i < k then PdHighEntry(base, i) else 0 }

  /** The window's directory with its first `k` entries set. */
  function Directory(base: nat, k: nat): (t: Table)
    ensures forall i :: 0 <= i < ENTRIES ==> t[i] == DirectoryEntry(base, k, i)
  {
    seq(ENTRIES, i requires 0 <= i < ENTRIES => DirectoryEntry(base, k, i))
  }

  /** The window table that pool page `n` holds. */
  function WindowIndex(n: nat): int { if n == 8 then 0 else n - 25 }

  function StagePage(was: Table, base: nat, win: seq<Table>, n: nat): Table {
    if n == 7 then Directory(base, |win|)
    else if (n == 8 || n > 25) && WindowIndex(n) < |win| then win[WindowIndex(n)]
    else was
  }

  /** The pool once the tables in `win` are linked and in place. */
  function Stage(was: seq<Table>, base: nat, win: seq<Table>): (r: seq<Table>)
    ensures |r| == |was| && forall n :: 0 <= n < |was| ==> r[n] == StagePage(was[n], base, win, n)
  {
    seq(|was|, n requires 0 <= n < |was| => StagePage(was[n], base, win, n))
  }

  /** The pages from the `n`-th on are untouched. */
  predicate FreshFrom(was: seq<Table>, n: nat) {
    forall i :: n <= i < |was| ==> was[i] == ZeroTable()
  }

  ghost predicate Building(mem: Memory, was: seq<Table>, base: nat, win: seq<Table>) {
    HasPool(mem, base) && |was| == POOL_PAGES && PoolOf(mem, base) == Stage(was, base, win)
  }

  lemma {:induction false} BuildStep(
    m0: Memory, m1: Memory, m2: Memory, was: seq<Table>, base: nat, win: seq<Table>, t: Table)
    requires 1 <= |win| < WINDOW_TABLES && Building(m0, was, base, win)
    requires m1 == m0[Pool(base, 7) := m0[Pool(base, 7)][|win| := Link(base, 25 + |win|)]]
    requires PoolKept(m1, m2, base, {25 + |win|})
    requires Pool(base, 25 + |win|) in m2 && m2[Pool(base, 25 + |win|)] == t
    ensures Building(m2, was, base, win + [t])
  {
    var k := |win|;
    assert PoolOf(m0, base)[7] == Directory(base, k);
    assert Directory(base, k)[k := Link(base, 25 + k)] == Directory(base, k + 1);
    forall n | 0 <= n < POOL_PAGES
      ensures Pool(base, n) in m2 && m2[Pool(base, n)] == StagePage(was[n], base, win + [t], n)
    {
      assert PoolOf(m0, base)[n] == StagePage(was[n], base, win, n);
    }
  }

  /** The first `k` window tables. */
  ghost function Windows(fw: nat -> Grant, kphys: nat, kp: nat, k: nat): (r: seq<Table>)
    ensures |r| == k && forall j :: 0 <= j < k ==> r[j] == Window(fw, kphys, kp, j)
  {
    if k == 0 then [] else Windows(fw, kphys, kp, k - 1) + [Window(fw, kphys, kp, k - 1)]
  }

  lemma {:induction false} WindowsNext(fw: nat -> Grant, kphys: nat, kp: nat, k: nat, p: Progress)
    requires k >= 1 && p == ProgressAt(fw, kp, k)
    ensures Windows(fw, kphys, kp, k + 1) == Windows(fw, kphys, kp, k) + [WindowTable(fw, kphys, kp, p.pm, p.calls)]
    ensures ProgressAt(fw, kp, k + 1) == After(fw, kp, p)
    ensures After(fw, kp, p).pm <= p.pm + ENTRIES
  {}

  lemma {:induction false} BuildStart(m0: Memory, m1: Memory, base: nat, t: Table)
    requires HasPool(m0, base) && m0[Pool(base, 7)] == LinkTable(base, 0, 1, 8)
    requires PoolKept(m0, m1, base, {8}) && Pool(base, 8) in m1 && m1[Pool(base, 8)] == t
    ensures Building(m1, PoolOf(m0, base), base, [t])
  {
    assert LinkTable(base, 0, 1, 8) == Directory(base, 1);
    forall n | 0 <= n < POOL_PAGES
      ensures Pool(base, n) in m1 && m1[Pool(base, n)] == StagePage(m0[Pool(base, n)], base, [t], n)
    {}
  }

  /** With all tables in place the directory and the window are complete. */
  lemma {:induction false} BuildEnd(mem: Memory, was: seq<Table>, base: nat, win: seq<Table>)
    requires |win| == WINDOW_TABLES && Building(mem, was, base, win)
    ensures mem[Pool(base, 7)] == PdHighTable(base)
    ensures forall k :: 0 <= k < WINDOW_TABLES ==> mem[Pool(base, WindowPage(k))] == win[k]
    ensures forall n :: 0 <= n < FIXED_PAGES && n != 7 && n != 8 ==> mem[Pool(base, n)] == was[n]
  {
    assert PoolOf(mem, base)[7] == Directory(base, WINDOW_TABLES);
    assert Directory(base, WINDOW_TABLES) == PdHighTable(base);
    forall k | 0 <= k < WINDOW_TABLES ensures mem[Pool(base, WindowPage(k))] == win[k] {
      assert PoolOf(mem, base)[WindowPage(k)] == StagePage(was[WindowPage(k)], base, win, WindowPage(k));
    }
    forall n | 0 <= n < FIXED_PAGES && n != 7 && n != 8 ensures mem[Pool(base, n)] == was[n] {
      assert PoolOf(mem, base)[n] == was[n];
    }
  }

  /** The root table before the direct map is added: the finished one but for entry 272. */
  function RootTable(base: nat): (t: Table)
    ensures t[272] == 0 && forall i :: 0 <= i < ENTRIES && i != 272 ==> t[i] == Pml4Entry(base, i)
  {
    ZeroTable()[0 := Link(base, 1)][511 := Link(base, 6)]
  }

  class Loader {
    var mem: Memory
    var poolBase: nat
    var poolNext: nat
    var pml4: nat
    var pdpt: nat
    var pd: seq<nat>
    var pdptHigh: nat
    var pdHigh: nat
    var ptHigh: nat
    var pdptPhysmap: nat
    var pdPhysmap: seq<nat>

    constructor ()
      ensures poolBase == 0 && mem == map[]
    {
      mem, poolBase, poolNext := map[], 0, 0;
      pml4, pdpt, pdptHigh, pdHigh, ptHigh, pdptPhysmap := 0, 0, 0, 0, 0, 0;
      pd, pdPhysmap := [], [];
    }

    /** Take the pool where the firmware grants it: below 1 MiB, else below 27 MiB; zero it. */
    method InitPageTablePool(low: Grant, high: Grant) returns (ok: bool)
      modifies this
      ensures ok <==> low.Granted? || high.Granted?
      ensures ok ==> poolBase == poolNext == (if low.Granted? then low.addr else high.addr)
      ensures ok ==> forall n :: 0 <= n < POOL_PAGES ==>
                       Pool(poolBase, n) in mem && mem[Pool(poolBase, n)] == ZeroTable()
      ensures !ok ==> poolBase == old(poolBase)
    {
      var grant := if low.Granted? then low else high;
      if grant.Denied? { return false; }
      poolBase, poolNext := grant.addr, grant.addr;
      for i := 0 to POOL_PAGES
        invariant poolBase == poolNext == grant.addr
        invariant forall n :: 0 <= n < i ==> Pool(poolBase, n) in mem && mem[Pool(poolBase, n)] == ZeroTable()
      {
        mem := mem[Pool(poolBase, i) := ZeroTable()];
      }
      return true;
    }

    /** The next pool page, or 0 when there is no pool or it is used up. */
    method AllocatePageTable() returns (addr: nat)
      modifies this`poolNext
      ensures if poolBase == 0 || old(poolNext) >= poolBase + POOL_PAGES * PAGE
              then addr == 0 && poolNext == old(poolNext)
              else addr == old(poolNext) && poolNext == old(poolNext) + PAGE
    {
      if poolBase == 0 { return 0; }
      if poolNext >= poolBase + POOL_PAGES * PAGE { return 0; }
      addr := poolNext;
      poolNext := poolNext + PAGE;
    }

    /** The tables that exist before any mapping is made, in the order they were taken. */
    ghost predicate FixedTables()
      reads this
    {
      && poolBase > 0
      && pml4 == Pool(poolBase, 0) && pdpt == Pool(poolBase, 1)
      && pdptHigh == Pool(poolBase, 6) && pdHigh == Pool(poolBase, 7) && ptHigh == Pool(poolBase, 8)
      && pdptPhysmap == Pool(poolBase, 9)
      && |pd| == 4 && (forall i :: 0 <= i < 4 ==> pd[i] == Pool(poolBase, 2 + i))
      && |pdPhysmap| == 16 && (forall i :: 0 <= i < 16 ==> pdPhysmap[i] == Pool(poolBase, 10 + i))
    }

    /** Setup succeeds exactly when a pool is granted at a non-zero address; it then takes 26 of 128 pages. */
    method InitPageTables(low: Grant, high: Grant) returns (ok: bool)
      modifies this
      ensures ok <==> (low.Granted? && low.addr != 0) || (low.Denied? && high.Granted? && high.addr != 0)
      ensures ok ==> FixedTables() && poolNext == Pool(poolBase, FIXED_PAGES)
      ensures ok ==> poolBase == (if low.Granted? then low.addr else high.addr)
      ensures ok ==> forall n :: 0 <= n < POOL_PAGES ==>
                       Pool(poolBase, n) in mem && mem[Pool(poolBase, n)] == ZeroTable()
    {
      ok := InitPageTablePool(low, high);
      if !ok { return false; }
      pml4 := AllocatePageTable();
      if pml4 == 0 { return false; }
      TakeFixedTables();
      return true;
    }

    /** The allocations behind the first: none of them can fail, 128 pages being more than 26. */
    method TakeFixedTables()
      requires poolBase > 0 && pml4 == Pool(poolBase, 0) && poolNext == Pool(poolBase, 1)
      modifies this`poolNext, this`pdpt, this`pd, this`pdptHigh, this`pdHigh, this`ptHigh
      modifies this`pdptPhysmap, this`pdPhysmap
      ensures FixedTables() && poolNext == Pool(poolBase, FIXED_PAGES)
    {
      pdpt := AllocatePageTable();
      pd := AllocateMany(4, 2);
      TakeHighTables();
      pdptPhysmap := AllocatePageTable();
      pdPhysmap := AllocateMany(16, 10);
    }

    /** One table of each level for the kernel window. */
    method TakeHighTables()
      requires poolBase > 0 && poolNext == Pool(poolBase, 6)
      modifies this`poolNext, this`pdptHigh, this`pdHigh, this`ptHigh
      ensures pdptHigh == Pool(poolBase, 6) && pdHigh == Pool(poolBase, 7) && ptHigh == Pool(poolBase, 8)
      ensures poolNext == Pool(poolBase, 9)
    {
      pdptHigh := AllocatePageTable();
      pdHigh := AllocatePageTable();
      ptHigh := AllocatePageTable();
    }

    /** `count` pages in a row, the first being the `at`-th of the pool. */
    method AllocateMany(count: nat, at: nat) returns (addrs: seq<nat>)
      requires poolBase > 0 && poolNext == Pool(poolBase, at) && at + count <= POOL_PAGES
      modifies this`poolNext
      ensures poolNext == Pool(poolBase, at + count)
      ensures |addrs| == count && forall i :: 0 <= i < count ==> addrs[i] == Pool(poolBase, at + i)
    {
      addrs := [];
      for i := 0 to count
        invariant poolNext == Pool(poolBase, at + i) && |addrs| == i
        invariant forall j :: 0 <= j < i ==> addrs[j] == Pool(poolBase, at + j)
      {
        var a := AllocatePageTable();
        addrs := addrs + [a];
      }
    }

    method SetEntry(t: nat, i: nat, addr: nat, flags: nat)
      requires t in mem && i < ENTRIES && addr % PAGE == 0 && flags < PAGE
      modifies this`mem
      ensures mem == old(mem)[t := old(mem)[t][i := addr + flags]]
    {
      OrIsSum(addr, flags);
      mem := mem[t := mem[t][i := Or(addr, flags)]];
    }

    method ClearTable(t: nat)
      requires t in mem
      modifies this`mem
      ensures mem == old(mem)[t := ZeroTable()]
    {
      for i := 0 to ENTRIES
        invariant t in mem && mem == old(mem)[t := mem[t]]
        invariant forall j :: 0 <= j < i ==> mem[t][j] == 0
      {
        SetEntry(t, i, 0, 0);
      }
      assert mem[t] == ZeroTable();
    }

    /** Map the `g`-th GiB of physical memory with 2 MiB pages. */
    method FillLarge(t: nat, g: nat)
      requires t in mem
      modifies this`mem
      ensures mem == old(mem)[t := LargeTable(g)]
    {
      for i := 0 to ENTRIES
        invariant t in mem && mem == old(mem)[t := mem[t]]
        invariant forall j :: 0 <= j < i ==> mem[t][j] == LargeTable(g)[j]
      {
        SetEntry(t, i, g * GIB + i * MIB2, RWX + PS);
      }
      assert mem[t] == LargeTable(g);
    }

    /** Directories `first ..` of the pool, one per GiB, linked from `t` and filled with 2 MiB pages. */
    method MapGigabytes(t: nat, dirs: seq<nat>, at: nat, first: nat)
      requires at < first && first + |dirs| <= POOL_PAGES && |dirs| <= ENTRIES && poolBase % PAGE == 0
      requires t == Pool(poolBase, at) && t in mem && mem[t] == ZeroTable()
      requires forall i :: 0 <= i < |dirs| ==> dirs[i] == Pool(poolBase, first + i)
      requires forall n :: 0 <= n < POOL_PAGES ==> Pool(poolBase, n) in mem
      modifies this`mem
      ensures forall n :: 0 <= n < POOL_PAGES ==> Pool(poolBase, n) in mem
      ensures mem[t] == LinkTable(poolBase, 0, |dirs|, first)
      ensures forall n :: first <= n < first + |dirs| ==> mem[Pool(poolBase, n)] == LargeTable(n - first)
      ensures forall n :: 0 <= n < POOL_PAGES && n != at && !(first <= n < first + |dirs|) ==>
                mem[Pool(poolBase, n)] == old(mem)[Pool(poolBase, n)]
    {
      assert mem[t] == LinkTable(poolBase, 0, 0, first);
      for i := 0 to |dirs|
        invariant forall n :: 0 <= n < POOL_PAGES ==> Pool(poolBase, n) in mem
        invariant t in mem && mem[t] == LinkTable(poolBase, 0, i, first)
        invariant forall n :: first <= n < first + i ==> mem[Pool(poolBase, n)] == LargeTable(n - first)
        invariant forall n :: 0 <= n < POOL_PAGES && n != at && !(first <= n < first + i) ==>
                    mem[Pool(poolBase, n)] == old(mem)[Pool(poolBase, n)]
      {
        assert dirs[i] == Pool(poolBase, first + i);
        ClearTable(dirs[i]);
        LinkGrow(poolBase, 0, i, first);
        SetEntry(t, i, dirs[i], RWX);
        FillLarge(dirs[i], i);
      }
    }

    /** Entry `i` of the window table on pool page `n`: the next page of the kernel image. */
    method FillKernel(n: nat, i: nat, fw: nat -> Grant, kphys: nat, ghost kp: nat, p: Progress)
      requires n < POOL_PAGES && Pool(poolBase, n) in mem && i < KernelPart(kp, p.pm) && kphys % PAGE == 0
      requires FilledTo(mem[Pool(poolBase, n)], fw, kphys, kp, p, i)
      modifies this`mem
      ensures Pool(poolBase, n) in mem && FilledTo(mem[Pool(poolBase, n)], fw, kphys, kp, p, i + 1)
      ensures PoolKept(old(mem), mem, poolBase, {n})
    {
      FillStep(mem[Pool(poolBase, n)], fw, kphys, kp, p, i);
      SetEntry(Pool(poolBase, n), i, kphys + (p.pm + i) * PAGE, RWX);
    }

    /** The same behind the kernel image: the page that call `c` grants, zeroed, unless it is refused. */
    method FillGranted(n: nat, i: nat, fw: nat -> Grant, c: nat, ghost kphys: nat, ghost kp: nat, ghost p: Progress)
      returns (ok: bool)
      requires Honest(fw, poolBase, kphys, kp) && n < POOL_PAGES && Pool(poolBase, n) in mem
      requires KernelPart(kp, p.pm) <= i < ENTRIES && c == p.calls + i - KernelPart(kp, p.pm)
      requires FilledTo(mem[Pool(poolBase, n)], fw, kphys, kp, p, i)
      modifies this`mem
      ensures ok <==> fw(c).Granted?
      ensures !ok ==> mem == old(mem)
      ensures Pool(poolBase, n) in mem
      ensures ok ==> FilledTo(mem[Pool(poolBase, n)], fw, kphys, kp, p, i + 1)
      ensures PoolKept(old(mem), mem, poolBase, {n})
    {
      if fw(c).Denied? { return false; }
      FillStep(mem[Pool(poolBase, n)], fw, kphys, kp, p, i);
      SetEntry(Pool(poolBase, n), i, fw(c).addr, RWX);
      mem := mem[fw(c).addr := ZeroTable()];
      return true;
    }

    /**
     The first table of the window: the kernel image, then granted pages until
     the first refusal.
     */
    method MapFirstTable(kphys: nat, kp: nat, fw: nat -> Grant) returns (calls: nat)
      requires Honest(fw, poolBase, kphys, kp)
      requires Pool(poolBase, 8) in mem && mem[Pool(poolBase, 8)] == ZeroTable()
      modifies this`mem
      ensures Pool(poolBase, 8) in mem && mem[Pool(poolBase, 8)] == Window(fw, kphys, kp, 0)
      ensures calls == ProgressAt(fw, kp, 1).calls
      ensures PoolKept(old(mem), mem, poolBase, {8})
    {
      var start := Progress(0, 0);
      var i: nat := 0;
      while i < kp && i < ENTRIES
        invariant i <= KernelPart(kp, 0)
        invariant Pool(poolBase, 8) in mem && PoolKept(old(mem), mem, poolBase, {8})
        invariant FilledTo(mem[Pool(poolBase, 8)], fw, kphys, kp, start, i)
      {
        FillKernel(8, i, fw, kphys, kp, start);
        i := i + 1;
      }
      calls := 0;
      while i < ENTRIES
        invariant KernelPart(kp, 0) <= i <= ENTRIES && calls == i - KernelPart(kp, 0)
        invariant Pool(poolBase, 8) in mem && PoolKept(old(mem), mem, poolBase, {8})
        invariant FilledTo(mem[Pool(poolBase, 8)], fw, kphys, kp, start, i)
      {
        var ok := FillGranted(8, i, fw, calls, kphys, kp, start);
        calls := calls + 1;
        if !ok { break; }
        i := i + 1;
      }
      WindowDone(mem[Pool(poolBase, 8)], fw, kphys, kp, start, i);
    }

    /** One further table: kernel pages while there are any, then granted pages until a refusal. */
    method MapTable(n: nat, kphys: nat, kp: nat, fw: nat -> Grant, p: Progress) returns (q: Progress)
      requires Honest(fw, poolBase, kphys, kp) && n < POOL_PAGES
      requires Pool(poolBase, n) in mem && mem[Pool(poolBase, n)] == ZeroTable()
      modifies this`mem
      ensures Pool(poolBase, n) in mem
      ensures mem[Pool(poolBase, n)] == WindowTable(fw, kphys, kp, p.pm, p.calls)
      ensures q == After(fw, kp, p)
      ensures PoolKept(old(mem), mem, poolBase, {n})
    {
      var pagesMapped, calls, i: nat := p.pm, p.calls, 0;
      while i < ENTRIES
        invariant i <= ENTRIES && pagesMapped == p.pm + i && calls == p.calls + Max(0, i - KernelPart(kp, p.pm))
        invariant Pool(poolBase, n) in mem && PoolKept(old(mem), mem, poolBase, {n})
        invariant FilledTo(mem[Pool(poolBase, n)], fw, kphys, kp, p, i)
      {
        if pagesMapped < kp {
          FillKernel(n, i, fw, kphys, kp, p);
        } else {
          var ok := FillGranted(n, i, fw, calls, kphys, kp, p);
          calls := calls + 1;
          if !ok { break; }
        }
        pagesMapped, i := pagesMapped + 1, i + 1;
      }
      WindowDone(mem[Pool(poolBase, n)], fw, kphys, kp, p, i);
      q := Progress(pagesMapped, calls);
    }

    /** The kernel window: 32 tables, 31 of them taken from the pool now. */
    method MapWindow(kphys: nat, kp: nat, fw: nat -> Grant)
      requires FixedTables() && Honest(fw, poolBase, kphys, kp)
      requires poolNext == Pool(poolBase, FIXED_PAGES)
      requires forall n :: 0 <= n < POOL_PAGES ==> Pool(poolBase, n) in mem
      requires mem[pdHigh] == LinkTable(poolBase, 0, 1, 8) && mem[ptHigh] == ZeroTable()
      requires forall n :: FIXED_PAGES <= n < POOL_PAGES ==> mem[Pool(poolBase, n)] == ZeroTable()
      modifies this`mem, this`poolNext
      ensures forall n :: 0 <= n < POOL_PAGES ==> Pool(poolBase, n) in mem
      ensures poolNext == Pool(poolBase, FIXED_PAGES + WINDOW_TABLES - 1)
      ensures mem[Pool(poolBase, 7)] == PdHighTable(poolBase)
      ensures forall k :: 0 <= k < WINDOW_TABLES ==> mem[Pool(poolBase, WindowPage(k))] == Window(fw, kphys, kp, k)
      ensures forall n :: 0 <= n < FIXED_PAGES && n != 7 && n != 8 ==>
                mem[Pool(poolBase, n)] == old(mem)[Pool(poolBase, n)]
    {
      var calls := MapFirstTable(kphys, kp, fw);
      var p := Progress(ENTRIES, calls);
      BuildStart(old(mem), mem, poolBase, Window(fw, kphys, kp, 0));
      var n: nat := WINDOW_TABLES;
      assert Windows(fw, kphys, kp, 1) == [Window(fw, kphys, kp, 0)];
      ghost var done := AddTables(n, kphys, kp, fw, p, PoolOf(old(mem), poolBase));
      BuildEnd(mem, PoolOf(old(mem), poolBase), poolBase, Windows(fw, kphys, kp, n));
    }

    /** After `k` tables: their contents, the counts and the pool pages taken. */
    ghost predicate Reached(k: nat, kphys: nat, kp: nat, fw: nat -> Grant, p: Progress, was: seq<Table>)
      reads this
    {
      && p == ProgressAt(fw, kp, k) && p.pm <= k * ENTRIES && poolNext == Pool(poolBase, 25 + k)
      && Building(mem, was, poolBase, Windows(fw, kphys, kp, k))
    }

    /** The loop over the further tables never stops early: the page count cannot outrun the tables. */
    method AddTables(n: nat, kphys: nat, kp: nat, fw: nat -> Grant, first: Progress, ghost was: seq<Table>)
      returns (ghost p: Progress)
      requires n == WINDOW_TABLES && Honest(fw, poolBase, kphys, kp) && pdHigh == Pool(poolBase, 7)
      requires Reached(1, kphys, kp, fw, first, was) && FreshFrom(was, FIXED_PAGES)
      modifies this`mem, this`poolNext
      ensures Reached(n, kphys, kp, fw, p, was)
    {
      var q, k: nat := first, 1;
      while k < n && q.pm < WINDOW_PAGES
        invariant 1 <= k <= n && Reached(k, kphys, kp, fw, q, was)
      {
        q := AddNextTable(k, kphys, kp, fw, q, was);
        k := k + 1;
      }
      p := q;
    }

    method AddNextTable(k: nat, kphys: nat, kp: nat, fw: nat -> Grant, p: Progress, ghost was: seq<Table>)
      returns (q: Progress)
      requires 1 <= k < WINDOW_TABLES && Honest(fw, poolBase, kphys, kp) && pdHigh == Pool(poolBase, 7)
      requires Reached(k, kphys, kp, fw, p, was) && FreshFrom(was, FIXED_PAGES)
      modifies this`mem, this`poolNext
      ensures Reached(k + 1, kphys, kp, fw, q, was)
    {
      q := AddTable(k, kphys, kp, fw, p, Windows(fw, kphys, kp, k), was);
      WindowsNext(fw, kphys, kp, k, p);
    }

    /** Take a table from the pool, link it from the window's directory and fill it. */
    method AddTable(
      k: nat, kphys: nat, kp: nat, fw: nat -> Grant, p: Progress, ghost win: seq<Table>, ghost was: seq<Table>)
      returns (q: Progress)
      requires 1 <= k < WINDOW_TABLES && Honest(fw, poolBase, kphys, kp) && |win| == k
      requires pdHigh == Pool(poolBase, 7) && poolNext == Pool(poolBase, 25 + k)
      requires Building(mem, was, poolBase, win)
      requires FreshFrom(was, FIXED_PAGES)
      modifies this`mem, this`poolNext
      ensures poolNext == Pool(poolBase, 26 + k) && q == After(fw, kp, p)
      ensures Building(mem, was, poolBase, win + [WindowTable(fw, kphys, kp, p.pm, p.calls)])
    {
      ghost var m0 := mem;
      assert PoolOf(mem, poolBase)[25 + k] == was[25 + k];
      var t := AllocatePageTable();
      SetEntry(pdHigh, k, t, RWX);
      ghost var m1 := mem;
      q := MapTable(25 + k, kphys, kp, fw, p);
      BuildStep(m0, m1, mem, was, poolBase, win, WindowTable(fw, kphys, kp, p.pm, p.calls));
    }

    /** The whole setup: identity map, kernel window, direct map. */
    method SetupHigherHalfPaging(kphys: nat, ksize: nat, fw: nat -> Grant)
      requires FixedTables() && Honest(fw, poolBase, kphys, KernelPages(ksize))
      requires poolNext == Pool(poolBase, FIXED_PAGES)
      requires forall n :: 0 <= n < POOL_PAGES ==> Pool(poolBase, n) in mem && mem[Pool(poolBase, n)] == ZeroTable()
      modifies this`mem, this`poolNext
      ensures TablesBuilt(mem, poolBase, fw, kphys, KernelPages(ksize))
      ensures poolNext == Pool(poolBase, FIXED_PAGES + WINDOW_TABLES - 1)
    {
      MapIdentity();
      MapWindow(kphys, KernelPages(ksize), fw);
      MapDirectMap();
    }

    /** The root's entries 0 and 511, the identity map, and the links down to the first window table. */
    method MapIdentity()
      requires FixedTables() && poolBase % PAGE == 0
      requires forall n :: 0 <= n < POOL_PAGES ==> Pool(poolBase, n) in mem && mem[Pool(poolBase, n)] == ZeroTable()
      modifies this`mem
      ensures HasPool(mem, poolBase)
      ensures mem[Pool(poolBase, 0)] == RootTable(poolBase)
      ensures mem[Pool(poolBase, 1)] == LinkTable(poolBase, 0, 4, 2)
      ensures forall n :: 2 <= n < 6 ==> mem[Pool(poolBase, n)] == LargeTable(n - 2)
      ensures mem[Pool(poolBase, 6)] == LinkTable(poolBase, 510, 1, 7)
      ensures mem[Pool(poolBase, 7)] == LinkTable(poolBase, 0, 1, 8)
      ensures forall n :: 8 <= n < POOL_PAGES ==> mem[Pool(poolBase, n)] == ZeroTable()
    {
      ClearMainTables();
      assert Pool(poolBase, 0) in mem && Pool(poolBase, 1) in mem;
      SetEntry(pml4, 0, pdpt, RWX);
      SetEntry(pml4, 511, pdptHigh, RWX);
      MapGigabytes(pdpt, pd, 1, 2);
      LinkWindow();
    }

    /** The links from the root's last table down to the first table of the window. */
    method LinkWindow()
      requires FixedTables() && HasPool(mem, poolBase) && poolBase % PAGE == 0
      requires mem[Pool(poolBase, 6)] == ZeroTable() && mem[Pool(poolBase, 7)] == ZeroTable()
      modifies this`mem
      ensures HasPool(mem, poolBase)
      ensures mem[Pool(poolBase, 6)] == LinkTable(poolBase, 510, 1, 7)
      ensures mem[Pool(poolBase, 7)] == LinkTable(poolBase, 0, 1, 8)
      ensures forall n :: 0 <= n < POOL_PAGES && n != 6 && n != 7 ==>
                mem[Pool(poolBase, n)] == old(mem)[Pool(poolBase, n)]
    {
      assert Pool(poolBase, 6) in mem && Pool(poolBase, 7) in mem;
      SetEntry(pdptHigh, KERNEL_OFFSET / GIB % ENTRIES, pdHigh, RWX);
      SetEntry(pdHigh, KERNEL_OFFSET / MIB2 % ENTRIES, ptHigh, RWX);
      assert mem[Pool(poolBase, 6)] == LinkTable(poolBase, 510, 1, 7);
      assert mem[Pool(poolBase, 7)] == LinkTable(poolBase, 0, 1, 8);
    }

    /** The root's entry 272 and the direct map of 16 GiB. */
    method MapDirectMap()
      requires FixedTables() && HasPool(mem, poolBase) && poolBase % PAGE == 0
      requires mem[Pool(poolBase, 0)] == RootTable(poolBase)
      modifies this`mem
      ensures HasPool(mem, poolBase)
      ensures mem[Pool(poolBase, 0)] == Pml4Table(poolBase)
      ensures mem[Pool(poolBase, 9)] == LinkTable(poolBase, 0, 16, 10)
      ensures forall n :: 10 <= n < 26 ==> mem[Pool(poolBase, n)] == LargeTable(n - 10)
      ensures forall n :: 1 <= n < POOL_PAGES && !(9 <= n < 26) ==>
                mem[Pool(poolBase, n)] == old(mem)[Pool(poolBase, n)]
    {
      assert Pool(poolBase, 0) in mem && Pool(poolBase, 9) in mem;
      ClearTable(pdptPhysmap);
      SetEntry(pml4, 272, pdptPhysmap, RWX);
      assert mem[Pool(poolBase, 0)] == Pml4Table(poolBase);
      MapGigabytes(pdptPhysmap, pdPhysmap, 9, 10);
    }

    /** Clear the tables that will hold links; the pool was zeroed already. */
    method ClearMainTables()
      requires FixedTables()
      requires forall n :: 0 <= n < POOL_PAGES ==> Pool(poolBase, n) in mem && mem[Pool(poolBase, n)] == ZeroTable()
      modifies this`mem
      ensures forall n :: 0 <= n < POOL_PAGES ==> Pool(poolBase, n) in mem && mem[Pool(poolBase, n)] == ZeroTable()
    {
      ClearTable(pml4);
      ClearTable(pdpt);
      ClearTable(pdptHigh);
      ClearTable(pdHigh);
      ClearTable(ptHigh);
    }
  }
}
