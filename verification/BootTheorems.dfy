/** What the finished boot page tables translate. */
module BootTheorems {
  import opened Bytes
  import opened BootPaging

  // ----- decoding entries -----

  lemma {:induction false} DecodeLink(a: nat)
    requires a % PAGE == 0 && a < PHYS_LIMIT
    ensures Present(a + RWX) && !Large(a + RWX) && Target(a + RWX) == a
  {}

  lemma {:induction false} DecodeLarge(a: nat)
    requires a % MIB2 == 0 && a < PHYS_LIMIT
    ensures Present(a + RWX + PS) && Large(a + RWX + PS) && Target2M(a + RWX + PS) == a
  {}

  /** Following a link from a table of links. */
  lemma {:induction false} DecodePool(base: nat, n: nat)
    requires base % PAGE == 0 && base + POOL_PAGES * PAGE <= PHYS_LIMIT && n < POOL_PAGES
    ensures Present(Pool(base, n) + RWX) && !Large(Pool(base, n) + RWX) && Target(Pool(base, n) + RWX) == Pool(base, n)
  {
    DecodeLink(Pool(base, n));
  }

  // ----- splitting addresses -----

  lemma {:induction false} TopIndex(v: nat)
    requires Canonical(v)
    ensures var i := v / GIB512 % ENTRIES;
            && (i == 0 <==> v < GIB512)
            && (i == 272 <==> PHYS_MAP_BASE <= v < PHYS_MAP_BASE + GIB512)
            && (i == 511 <==> VIRT_LIMIT - GIB512 <= v)
            && (i == 0 ==> v % GIB512 == v)
            && (i == 272 ==> v % GIB512 == v - PHYS_MAP_BASE)
  {}

  lemma {:induction false} KernelIndex(v: nat)
    requires VIRT_LIMIT - GIB512 <= v < VIRT_LIMIT
    ensures v / GIB % ENTRIES == 510 <==> KERNEL_OFFSET <= v < KERNEL_OFFSET + GIB
    ensures KERNEL_OFFSET <= v < KERNEL_OFFSET + GIB ==>
              var o := v - KERNEL_OFFSET;
              v / MIB2 % ENTRIES == o / MIB2 == o / PAGE / ENTRIES && v / PAGE % ENTRIES == o / PAGE % ENTRIES
  {
    GigabyteIndex(v);
    if KERNEL_OFFSET <= v < KERNEL_OFFSET + GIB {
      PageIndex(v - KERNEL_OFFSET, v);
      LargeIndex(v - KERNEL_OFFSET, v);
    }
  }

  lemma {:induction false} GigabyteIndex(v: nat)
    requires VIRT_LIMIT - GIB512 <= v < VIRT_LIMIT
    ensures v / GIB % ENTRIES == 510 <==> KERNEL_OFFSET <= v < KERNEL_OFFSET + GIB
  {
    var base := VIRT_LIMIT / GIB - ENTRIES;
    var n := v / GIB - base;
    assert 0 <= n < ENTRIES && base % ENTRIES == 0;
  }

  lemma {:induction false} PageIndex(o: nat, v: nat)
    requires v == KERNEL_OFFSET + o
    ensures v / PAGE % ENTRIES == o / PAGE % ENTRIES
  {
    assert v / PAGE == KERNEL_OFFSET / PAGE + o / PAGE;
  }

  lemma {:induction false} LargeIndex(o: nat, v: nat)
    requires v == KERNEL_OFFSET + o && o < GIB
    ensures v / MIB2 % ENTRIES == o / MIB2 == o / PAGE / ENTRIES
  {
    assert v / MIB2 == KERNEL_OFFSET / MIB2 + o / MIB2;
  }

  lemma {:induction false} SplitGiB(v: nat)
    ensures v % GIB512 == v / GIB % ENTRIES * GIB + v % GIB
  {}

  lemma {:induction false} SplitMiB(v: nat)
    ensures v % GIB == v / MIB2 % ENTRIES * MIB2 + v % MIB2 < GIB
  {}

  // ----- a region of 2 MiB pages -----

  lemma {:induction false} WalkLarge(mem: Memory, t: nat, g: nat, p: Parts)
    requires t in mem && mem[t] == LargeTable(g) && g < 512
    ensures Walk2(mem, t, p) == Some(g * GIB + p.i2 * MIB2 + p.in2M)
  {
    assert mem[t][p.i2] == g * GIB + p.i2 * MIB2 + RWX + PS;
    DecodeLarge(g * GIB + p.i2 * MIB2);
  }

  /** Below the `n` GiB that a table of directories covers, addresses map to themselves. */
  lemma {:induction false} WalkDirectParts(mem: Memory, base: nat, t: nat, n: nat, first: nat, p: Parts)
    requires base % PAGE == 0 && base + POOL_PAGES * PAGE <= PHYS_LIMIT && first + n <= POOL_PAGES && n <= 16
    requires t in mem && mem[t] == LinkTable(base, 0, n, first)
    requires forall m :: first <= m < first + n ==> Pool(base, m) in mem && mem[Pool(base, m)] == LargeTable(m - first)
    ensures Walk3(mem, t, p) == if p.i3 < n then Some(p.i3 * GIB + p.i2 * MIB2 + p.in2M) else None
  {
    assert mem[t][p.i3] == LinkEntry(base, 0, n, first, p.i3);
    if p.i3 < n {
      DecodePool(base, first + p.i3);
      WalkLarge(mem, Pool(base, first + p.i3), p.i3, p);
    }
  }

  lemma {:induction false} WalkDirect(mem: Memory, base: nat, t: nat, n: nat, first: nat, v: nat)
    requires base % PAGE == 0 && base + POOL_PAGES * PAGE <= PHYS_LIMIT && first + n <= POOL_PAGES && n <= 16
    requires t in mem && mem[t] == LinkTable(base, 0, n, first)
    requires forall m :: first <= m < first + n ==> Pool(base, m) in mem && mem[Pool(base, m)] == LargeTable(m - first)
    ensures Walk3(mem, t, PartsOf(v)) == if v % GIB512 < n * GIB then Some(v % GIB512) else None
  {
    WalkDirectParts(mem, base, t, n, first, PartsOf(v));
    SplitGiB(v);
    SplitMiB(v);
  }

  // ----- the kernel window -----

  function WindowEntry(fw: nat -> Grant, kphys: nat, kp: nat, page: nat): nat {
    Window(fw, kphys, kp, page / ENTRIES)[page % ENTRIES]
  }

  /** The frame of a page of the kernel window. */
  function WindowTarget(fw: nat -> Grant, kphys: nat, kp: nat, page: nat): Option<nat> {
    Leaf(WindowEntry(fw, kphys, kp, page), 0)
  }

  /** The frames of the kernel window, page by page. */
  function WindowMap(fw: nat -> Grant, kphys: nat, kp: nat): nat -> Option<nat> {
    (page: nat) => WindowTarget(fw, kphys, kp, page)
  }

  /** The translation the tables are meant to give, given the frames of the kernel window. */
  function Translation(window: nat -> Option<nat>, v: nat): Option<nat> {
    if v < 4 * GIB then Some(v)
    else if PHYS_MAP_BASE <= v < PHYS_MAP_BASE + 16 * GIB then Some(v - PHYS_MAP_BASE)
    else if KERNEL_OFFSET <= v < KERNEL_OFFSET + WINDOW_PAGES * PAGE then
      match window((v - KERNEL_OFFSET) / PAGE)
      case None => None
      case Some(frame) => Some(frame + v % PAGE)
    else None
  }

  /** A walk from the directory of the kernel's GiB, `w` being the table it gets to. */
  lemma {:induction false} WindowDirectory(mem: Memory, base: nat, p: Parts, w: Table)
    requires base % PAGE == 0 && base + POOL_PAGES * PAGE <= PHYS_LIMIT
    requires Pool(base, 7) in mem && mem[Pool(base, 7)] == PdHighTable(base)
    requires p.i2 < WINDOW_TABLES ==> Pool(base, WindowPage(p.i2)) in mem && mem[Pool(base, WindowPage(p.i2))] == w
    ensures Walk2(mem, Pool(base, 7), p) == if p.i2 < WINDOW_TABLES then Leaf(w[p.i1], p.in4K) else None
  {
    assert mem[Pool(base, 7)][p.i2] == PdHighEntry(base, p.i2);
    if p.i2 < WINDOW_TABLES { DecodePool(base, WindowPage(p.i2)); }
  }

  lemma {:induction false} KernelDirectory(mem: Memory, base: nat, p: Parts, w: Table)
    requires base % PAGE == 0 && base + POOL_PAGES * PAGE <= PHYS_LIMIT
    requires Pool(base, 6) in mem && mem[Pool(base, 6)] == LinkTable(base, 510, 1, 7)
    requires Pool(base, 7) in mem && mem[Pool(base, 7)] == PdHighTable(base)
    requires p.i2 < WINDOW_TABLES ==> Pool(base, WindowPage(p.i2)) in mem && mem[Pool(base, WindowPage(p.i2))] == w
    ensures Walk3(mem, Pool(base, 6), p)
         == if p.i3 == 510 && p.i2 < WINDOW_TABLES then Leaf(w[p.i1], p.in4K) else None
  {
    assert mem[Pool(base, 6)][p.i3] == LinkEntry(base, 510, 1, 7, p.i3);
    DecodePool(base, 7);
    WindowDirectory(mem, base, p, w);
  }

  /** The window in terms of the indices: `w` is the table at `i2`. */
  lemma {:induction false} KernelTranslation(fw: nat -> Grant, kphys: nat, kp: nat, v: nat, p: Parts, w: Table)
    requires VIRT_LIMIT - GIB512 <= v < VIRT_LIMIT && p == PartsOf(v) && w == Window(fw, kphys, kp, p.i2)
    ensures Translation(WindowMap(fw, kphys, kp), v)
         == if p.i3 == 510 && p.i2 < WINDOW_TABLES then Leaf(w[p.i1], p.in4K) else None
  {
    KernelIndex(v);
    LeafOffset(w[p.i1], v % PAGE);
  }

  lemma {:induction false} LeafOffset(e: nat, offset: nat)
    ensures Leaf(e, offset) == match Leaf(e, 0) case None => None case Some(frame) => Some(frame + offset)
  {}

  /**
   Every 64-bit address: the finished tables translate exactly the identity
   window, the direct map and the kernel window, and nothing else.
   */
  lemma {:induction false} WalkExact(mem: Memory, base: nat, fw: nat -> Grant, kphys: nat, kp: nat, v: nat)
    requires Honest(fw, base, kphys, kp) && TablesBuilt(mem, base, fw, kphys, kp) && v < VIRT_LIMIT
    ensures Walk(mem, Pool(base, 0), v) == Translation(WindowMap(fw, kphys, kp), v)
  {
    if Canonical(v) {
      TopIndex(v);
      TopDirectory(mem, base, PartsOf(v));
      var i := v / GIB512 % ENTRIES;
      if i == 0 {
        WalkDirect(mem, base, Pool(base, 1), 4, 2, v);
      } else if i == 272 {
        WalkDirect(mem, base, Pool(base, 9), 16, 10, v);
      } else if i == 511 {
        KernelExact(mem, base, fw, kphys, kp, v);
      }
    }
  }

  lemma {:induction false} KernelExact(mem: Memory, base: nat, fw: nat -> Grant, kphys: nat, kp: nat, v: nat)
    requires base % PAGE == 0 && base + POOL_PAGES * PAGE <= PHYS_LIMIT && TablesBuilt(mem, base, fw, kphys, kp)
    requires VIRT_LIMIT - GIB512 <= v < VIRT_LIMIT
    ensures Walk3(mem, Pool(base, 6), PartsOf(v)) == Translation(WindowMap(fw, kphys, kp), v)
  {
    var p := PartsOf(v);
    var w := Window(fw, kphys, kp, p.i2);
    KernelDirectory(mem, base, p, w);
    KernelTranslation(fw, kphys, kp, v, p, w);
  }

  lemma {:induction false} TopDirectory(mem: Memory, base: nat, p: Parts)
    requires base % PAGE == 0 && base + POOL_PAGES * PAGE <= PHYS_LIMIT
    requires Pool(base, 0) in mem && mem[Pool(base, 0)] == Pml4Table(base)
    ensures Walk4(mem, Pool(base, 0), p)
         == if p.i4 == 0 then Walk3(mem, Pool(base, 1), p)
            else if p.i4 == 272 then Walk3(mem, Pool(base, 9), p)
            else if p.i4 == 511 then Walk3(mem, Pool(base, 6), p)
            else None
  {
    assert mem[Pool(base, 0)][p.i4] == Pml4Entry(base, p.i4);
    DecodePool(base, 1);
    DecodePool(base, 9);
    DecodePool(base, 6);
  }

  // ----- what the kernel window holds, under every pattern of refusals -----

  /** The page count lags behind only once every kernel page is mapped. */
  lemma {:induction false} ProgressBounds(fw: nat -> Grant, kp: nat, k: nat)
    ensures var p := ProgressAt(fw, kp, k);
            p.pm <= k * ENTRIES && (p.pm == k * ENTRIES || p.pm >= kp)
  {
    if k > 0 {
      ProgressBounds(fw, kp, k - 1);
      var q := ProgressAt(fw, kp, k - 1);
      var c := KernelPart(kp, q.pm);
      assert c == ENTRIES || q.pm + c >= kp;
    }
  }

  lemma {:induction false} CallsStep(fw: nat -> Grant, kp: nat, k: nat)
    ensures var p := ProgressAt(fw, kp, k);
            p.calls + Grants(fw, p.calls, ENTRIES - KernelPart(kp, p.pm)) <= ProgressAt(fw, kp, k + 1).calls
  {}

  lemma {:induction false} StepsMonotone(f: nat -> nat, j: nat, k: nat)
    requires j <= k && forall i: nat, n: nat :: n == i + 1 ==> f(i) <= f(n)
    ensures f(j) <= f(k)
    decreases k - j
  {
    if j < k { StepsMonotone(f, j, k - 1); }
  }

  lemma {:induction false} CallsMonotone(fw: nat -> Grant, kp: nat, j: nat, k: nat)
    requires j <= k
    ensures ProgressAt(fw, kp, j).calls <= ProgressAt(fw, kp, k).calls
  {
    var f := (n: nat) => ProgressAt(fw, kp, n).calls;
    forall i: nat, n: nat | n == i + 1 ensures f(i) <= f(n) { CallsStep(fw, kp, i); }
    StepsMonotone(f, j, k);
  }

  /** The entry at `page` stems from the kernel image page of the same number. */
  predicate FromKernel(fw: nat -> Grant, kp: nat, page: nat) {
    page % ENTRIES < KernelPart(kp, ProgressAt(fw, kp, page / ENTRIES).pm)
  }

  /** The entry at `page` stems from an AllocatePages call that succeeded. */
  predicate FromGrant(fw: nat -> Grant, kp: nat, page: nat) {
    var p := ProgressAt(fw, kp, page / ENTRIES);
    var c := KernelPart(kp, p.pm);
    c <= page % ENTRIES < c + Grants(fw, p.calls, ENTRIES - c)
  }

  /** The number of that call. */
  function CallOf(fw: nat -> Grant, kp: nat, page: nat): (n: nat)
    requires FromGrant(fw, kp, page)
    ensures fw(n).Granted?
  {
    var p := ProgressAt(fw, kp, page / ENTRIES);
    p.calls + page % ENTRIES - KernelPart(kp, p.pm)
  }

  lemma {:induction false} EntryTarget(fw: nat -> Grant, kphys: nat, kp: nat, page: nat, a: nat)
    requires a % PAGE == 0 && a < PHYS_LIMIT && WindowEntry(fw, kphys, kp, page) == a + RWX
    ensures WindowTarget(fw, kphys, kp, page) == Some(a)
  {
    DecodeLink(a);
  }

  lemma {:induction false} KernelEntry(fw: nat -> Grant, kphys: nat, kp: nat, page: nat)
    requires FromKernel(fw, kp, page)
    ensures page < kp && WindowEntry(fw, kphys, kp, page) == kphys + page * PAGE + RWX
  {
    var k, r := page / ENTRIES, page % ENTRIES;
    ProgressBounds(fw, kp, k);
    assert ProgressAt(fw, kp, k).pm + r == page;
  }

  /** What the firmware promises about one page of the image. */
  lemma {:induction false} HonestImage(fw: nat -> Grant, base: nat, kphys: nat, kp: nat, page: nat)
    requires Honest(fw, base, kphys, kp) && page < kp
    ensures (kphys + page * PAGE) % PAGE == 0 && kphys + page * PAGE < PHYS_LIMIT
  {}

  lemma {:induction false} KernelOrigin(fw: nat -> Grant, base: nat, kphys: nat, kp: nat, page: nat)
    requires Honest(fw, base, kphys, kp) && FromKernel(fw, kp, page)
    ensures page < kp && WindowTarget(fw, kphys, kp, page) == Some(kphys + page * PAGE)
  {
    KernelEntry(fw, kphys, kp, page);
    HonestImage(fw, base, kphys, kp, page);
    EntryTarget(fw, kphys, kp, page, kphys + page * PAGE);
  }

  lemma {:induction false} GrantedIn(fw: nat -> Grant, c: nat, n: nat, j: nat)
    requires c <= j < c + Grants(fw, c, n)
    ensures fw(j).Granted?
  {}

  lemma {:induction false} GrantTableEntry(fw: nat -> Grant, kphys: nat, kp: nat, p: Progress, r: nat, c: nat, n: nat)
    requires c == KernelPart(kp, p.pm) <= r < ENTRIES && r < c + Grants(fw, p.calls, ENTRIES - c)
    requires n == p.calls + r - c
    ensures fw(n).Granted? && WindowTableEntry(fw, kphys, kp, p.pm, p.calls, r) == fw(n).addr + RWX
  {
    GrantedIn(fw, p.calls, ENTRIES - c, n);
    GrantCell(fw, kphys, p.pm, p.calls, c, r, n);
    InTable(fw, kphys, kp, p, r, c, Grants(fw, p.calls, ENTRIES - c));
  }

  lemma {:induction false} GrantCell(fw: nat -> Grant, kphys: nat, pm: nat, calls: nat, c: nat, r: nat, n: nat)
    requires c <= r && n == calls + r - c && fw(n).Granted?
    ensures Cell(fw, kphys, pm, calls, c, r) == fw(n).addr + RWX
  {}

  lemma {:induction false} InTable(fw: nat -> Grant, kphys: nat, kp: nat, p: Progress, r: nat, c: nat, g: nat)
    requires c == KernelPart(kp, p.pm) && g == Grants(fw, p.calls, ENTRIES - c) && r < ENTRIES && r < c + g
    ensures WindowTableEntry(fw, kphys, kp, p.pm, p.calls, r) == Cell(fw, kphys, p.pm, p.calls, c, r)
  {}

  lemma {:induction false} GrantEntry(fw: nat -> Grant, kphys: nat, kp: nat, page: nat)
    requires FromGrant(fw, kp, page)
    ensures WindowEntry(fw, kphys, kp, page) == fw(CallOf(fw, kp, page)).addr + RWX
  {
    var p := ProgressAt(fw, kp, page / ENTRIES);
    GrantTableEntry(fw, kphys, kp, p, page % ENTRIES, KernelPart(kp, p.pm), CallOf(fw, kp, page));
  }

  /** What the firmware promises about one page. */
  lemma {:induction false} HonestGrant(fw: nat -> Grant, base: nat, kphys: nat, kp: nat, n: nat)
    requires Honest(fw, base, kphys, kp) && fw(n).Granted?
    ensures fw(n).addr % PAGE == 0 && fw(n).addr < PHYS_LIMIT
  {}

  lemma {:induction false} CallTarget(fw: nat -> Grant, kphys: nat, kp: nat, page: nat, n: nat)
    requires FromGrant(fw, kp, page) && n == CallOf(fw, kp, page)
    requires fw(n).addr % PAGE == 0 && fw(n).addr < PHYS_LIMIT
    ensures WindowTarget(fw, kphys, kp, page) == Some(fw(n).addr)
  {
    GrantEntry(fw, kphys, kp, page);
    EntryTarget(fw, kphys, kp, page, fw(n).addr);
  }

  lemma {:induction false} GrantOrigin(fw: nat -> Grant, base: nat, kphys: nat, kp: nat, page: nat)
    requires Honest(fw, base, kphys, kp) && FromGrant(fw, kp, page)
    ensures WindowTarget(fw, kphys, kp, page) == Some(fw(CallOf(fw, kp, page)).addr)
  {
    var n := CallOf(fw, kp, page);
    HonestGrant(fw, base, kphys, kp, n);
    CallTarget(fw, kphys, kp, page, n);
  }

  lemma {:induction false} NoOrigin(fw: nat -> Grant, kphys: nat, kp: nat, page: nat)
    requires !FromKernel(fw, kp, page) && !FromGrant(fw, kp, page)
    ensures WindowTarget(fw, kphys, kp, page) == None
  {
    assert WindowEntry(fw, kphys, kp, page) == 0;
  }

  lemma {:induction false} Origin(fw: nat -> Grant, base: nat, kphys: nat, kp: nat, page: nat)
    requires Honest(fw, base, kphys, kp)
    ensures var t := WindowTarget(fw, kphys, kp, page);
            && (FromKernel(fw, kp, page) ==> page < kp && t == Some(kphys + page * PAGE))
            && (FromGrant(fw, kp, page) ==> t == Some(fw(CallOf(fw, kp, page)).addr))
            && (!FromKernel(fw, kp, page) && !FromGrant(fw, kp, page) ==> t == None)
  {
    if FromKernel(fw, kp, page) {
      KernelOrigin(fw, base, kphys, kp, page);
    } else if FromGrant(fw, kp, page) {
      GrantOrigin(fw, base, kphys, kp, page);
    } else {
      NoOrigin(fw, kphys, kp, page);
    }
  }

  /**
   Whatever AllocatePages refuses, every page of the kernel image that fits the
   window is mapped where the image was loaded.
   */
  lemma {:induction false} KernelAlwaysMapped(fw: nat -> Grant, base: nat, kphys: nat, kp: nat, page: nat)
    requires Honest(fw, base, kphys, kp) && page < Min(kp, WINDOW_PAGES)
    ensures WindowTarget(fw, kphys, kp, page) == Some(kphys + page * PAGE)
  {
    ProgressBounds(fw, kp, page / ENTRIES);
    Origin(fw, base, kphys, kp, page);
  }

  lemma {:induction false} CallBounds(fw: nat -> Grant, kp: nat, page: nat, k: nat, next: nat)
    requires FromGrant(fw, kp, page) && k == page / ENTRIES && next == k + 1
    ensures ProgressAt(fw, kp, k).calls <= CallOf(fw, kp, page) < ProgressAt(fw, kp, next).calls
  {
    CallsStep(fw, kp, k);
  }

  lemma {:induction false} SameTableCalls(fw: nat -> Grant, kp: nat, m: nat, n: nat)
    requires m < n && m / ENTRIES == n / ENTRIES && FromGrant(fw, kp, m) && FromGrant(fw, kp, n)
    ensures CallOf(fw, kp, m) < CallOf(fw, kp, n)
  {
    assert m % ENTRIES < n % ENTRIES;
  }

  lemma {:induction false} LaterTableCalls(fw: nat -> Grant, kp: nat, m: nat, n: nat, j: nat, next: nat, k: nat)
    requires FromGrant(fw, kp, m) && FromGrant(fw, kp, n)
    requires j == m / ENTRIES && next == j + 1 <= k == n / ENTRIES
    ensures CallOf(fw, kp, m) < CallOf(fw, kp, n)
  {
    CallBounds(fw, kp, m, j, next);
    CallsMonotone(fw, kp, next, k);
    CallBounds(fw, kp, n, k, k + 1);
  }

  lemma {:induction false} CallsDiffer(fw: nat -> Grant, kp: nat, m: nat, n: nat)
    requires m < n && FromGrant(fw, kp, m) && FromGrant(fw, kp, n)
    ensures CallOf(fw, kp, m) < CallOf(fw, kp, n)
  {
    var j, k := m / ENTRIES, n / ENTRIES;
    if j < k { LaterTableCalls(fw, kp, m, n, j, j + 1, k); } else { SameTableCalls(fw, kp, m, n); }
  }

  /** No two pages of the window share a frame, and none is mapped onto the page-table pool. */
  lemma {:induction false} FramesDistinct(fw: nat -> Grant, base: nat, kphys: nat, kp: nat, m: nat, n: nat)
    requires Honest(fw, base, kphys, kp) && m < n
    requires WindowTarget(fw, kphys, kp, m).Some? && WindowTarget(fw, kphys, kp, n).Some?
    ensures WindowTarget(fw, kphys, kp, m) != WindowTarget(fw, kphys, kp, n)
    ensures forall i :: 0 <= i < POOL_PAGES ==> WindowTarget(fw, kphys, kp, n).value != Pool(base, i)
    ensures forall i :: 0 <= i < POOL_PAGES ==> WindowTarget(fw, kphys, kp, m).value != Pool(base, i)
  {
    Origin(fw, base, kphys, kp, m);
    Origin(fw, base, kphys, kp, n);
    if FromGrant(fw, kp, m) && FromGrant(fw, kp, n) { CallsDiffer(fw, kp, m, n); }
  }

  // ----- what it holds when nothing is refused -----

  /** The first `n` calls of AllocatePages succeed. */
  ghost predicate GrantedTo(fw: nat -> Grant, n: int) { forall i :: 0 <= i < n ==> fw(i).Granted? }

  /** Calls that succeed from `c` on make a run of grants. */
  lemma {:induction false} RunOfGrants(fw: nat -> Grant, c: nat, n: nat, x: nat)
    requires GrantedTo(fw, c + x) && x <= n
    ensures x <= Grants(fw, c, n)
  {}

  lemma {:induction false} AfterUnrefused(fw: nat -> Grant, kp: nat, p: Progress)
    requires GrantedTo(fw, p.calls + ENTRIES - KernelPart(kp, p.pm))
    ensures After(fw, kp, p) == Progress(p.pm + ENTRIES, p.calls + ENTRIES - KernelPart(kp, p.pm))
  {
    RunOfGrants(fw, p.calls, ENTRIES - KernelPart(kp, p.pm), ENTRIES - KernelPart(kp, p.pm));
  }

  /** Progress when every call so far succeeded. */
  function Steady(kp: nat, m: nat): Progress { Progress(m, Max(0, m - kp)) }

  /** The table behind `m` pages, `kp` of all pages being the kernel's. */
  lemma {:induction false} TableUnrefused(fw: nat -> Grant, kp: nat, m: nat)
    requires GrantedTo(fw, m + ENTRIES - kp)
    ensures After(fw, kp, Steady(kp, m)) == Steady(kp, m + ENTRIES)
  {
    AfterUnrefused(fw, kp, Steady(kp, m));
  }

  lemma {:induction false} ProgressNext(fw: nat -> Grant, kp: nat, k: nat, p: Progress, q: Progress)
    requires p == ProgressAt(fw, kp, k) && q == After(fw, kp, p) && (k == 0 ==> q.pm == ENTRIES)
    ensures ProgressAt(fw, kp, k + 1) == q
  {}

  lemma {:induction false} SteadySteps(f: nat -> Progress, kp: nat, k: nat, top: nat)
    requires k <= top && f(0) == Steady(kp, 0)
    requires forall i: nat, n: nat :: n == i + 1 <= top && f(i) == Steady(kp, i * ENTRIES) ==>
               f(n) == Steady(kp, n * ENTRIES)
    ensures f(k) == Steady(kp, k * ENTRIES)
  {
    if k > 0 { SteadySteps(f, kp, k - 1, top); }
  }

  lemma {:induction false} SteadyStep(fw: nat -> Grant, kp: nat, k: nat)
    requires GrantedTo(fw, (k + 1) * ENTRIES - kp) && ProgressAt(fw, kp, k) == Steady(kp, k * ENTRIES)
    ensures ProgressAt(fw, kp, k + 1) == Steady(kp, (k + 1) * ENTRIES)
  {
    TableUnrefused(fw, kp, k * ENTRIES);
    ProgressNext(fw, kp, k, Steady(kp, k * ENTRIES), Steady(kp, (k + 1) * ENTRIES));
  }

  lemma {:induction false} ProgressUnrefused(fw: nat -> Grant, kp: nat, k: nat)
    requires GrantedTo(fw, k * ENTRIES - kp)
    ensures ProgressAt(fw, kp, k) == Steady(kp, k * ENTRIES)
  {
    var f := (n: nat) => ProgressAt(fw, kp, n);
    forall i: nat, n: nat | n == i + 1 <= k && f(i) == Steady(kp, i * ENTRIES) ensures f(n) == Steady(kp, n * ENTRIES) {
      SteadyStep(fw, kp, i);
    }
    SteadySteps(f, kp, k, k);
  }

  /** Up to the first refusal, the kernel's pages are followed by the granted ones in order. */
  lemma {:induction false} OriginUnrefused(fw: nat -> Grant, kp: nat, page: nat)
    requires GrantedTo(fw, page + 1 - kp)
    ensures page < kp ==> FromKernel(fw, kp, page)
    ensures page >= kp ==> FromGrant(fw, kp, page) && CallOf(fw, kp, page) == page - kp
  {
    var k, r := page / ENTRIES, page % ENTRIES;
    ProgressUnrefused(fw, kp, k);
    if page >= kp {
      var c := KernelPart(kp, k * ENTRIES);
      RunOfGrants(fw, Max(0, k * ENTRIES - kp), ENTRIES - c, r + 1 - c);
    }
  }

  lemma {:induction false} RefusedEntry(fw: nat -> Grant, kp: nat, n: nat, m: nat, r: nat)
    requires fw(n).Denied? && m + r == kp + n
    ensures r >= KernelPart(kp, m)
    ensures r >= KernelPart(kp, m) + Grants(fw, Max(0, m - kp), ENTRIES - KernelPart(kp, m))
  {}

  /** The page of the first refused call is not mapped. */
  lemma {:induction false} HoleAtRefusal(fw: nat -> Grant, kphys: nat, kp: nat, n: nat, page: nat)
    requires GrantedTo(fw, n) && fw(n).Denied? && page == kp + n
    ensures WindowTarget(fw, kphys, kp, page) == None
  {
    var k := page / ENTRIES;
    ProgressUnrefused(fw, kp, k);
    RefusedEntry(fw, kp, n, k * ENTRIES, page % ENTRIES);
    NoOrigin(fw, kphys, kp, page);
  }

  lemma {:induction false} GrantUnrefused(fw: nat -> Grant, kphys: nat, kp: nat, page: nat, n: nat)
    requires page == kp + n && GrantedTo(fw, n + 1) && fw(n).addr % PAGE == 0 && fw(n).addr < PHYS_LIMIT
    ensures WindowTarget(fw, kphys, kp, page) == Some(fw(n).addr)
  {
    OriginUnrefused(fw, kp, page);
    CallTarget(fw, kphys, kp, page, n);
  }

  /** Behind the image, up to the first refusal, the window holds the granted pages in order. */
  lemma {:induction false} WindowUnrefused(fw: nat -> Grant, base: nat, kphys: nat, kp: nat, page: nat, n: nat)
    requires Honest(fw, base, kphys, kp) && page == kp + n && GrantedTo(fw, n + 1)
    ensures WindowTarget(fw, kphys, kp, page) == Some(fw(n).addr)
  {
    HonestGrant(fw, base, kphys, kp, n);
    GrantUnrefused(fw, kphys, kp, page, n);
  }

  lemma {:induction false} ImageUnrefused(fw: nat -> Grant, base: nat, kphys: nat, kp: nat, page: nat)
    requires Honest(fw, base, kphys, kp) && page < kp
    ensures WindowTarget(fw, kphys, kp, page) == Some(kphys + page * PAGE)
  {
    OriginUnrefused(fw, kp, page);
    KernelOrigin(fw, base, kphys, kp, page);
  }

  ghost predicate HoldsImage(window: nat -> Option<nat>, kphys: nat, kp: nat) {
    forall page: nat :: page < kp ==> window(page) == Some(kphys + page * PAGE)
  }

  ghost predicate GrantAt(window: nat -> Option<nat>, fw: nat -> Grant, page: nat, n: nat) {
    GrantedTo(fw, n + 1) ==> window(page) == Some(fw(n).addr)
  }

  ghost predicate HoleAt(window: nat -> Option<nat>, fw: nat -> Grant, page: nat, n: nat) {
    GrantedTo(fw, n) && fw(n).Denied? ==> window(page) == None
  }

  ghost predicate HoldsGrants(window: nat -> Option<nat>, fw: nat -> Grant, kp: nat) {
    forall page: nat, n: nat :: page == kp + n ==> GrantAt(window, fw, page, n)
  }

  ghost predicate EndsAtRefusal(window: nat -> Option<nat>, fw: nat -> Grant, kp: nat) {
    forall page: nat, n: nat :: page == kp + n ==> HoleAt(window, fw, page, n)
  }

  /** `window` holds the image, and behind it the granted pages in order up to a hole at the first refusal. */
  ghost predicate InOrder(window: nat -> Option<nat>, fw: nat -> Grant, kphys: nat, kp: nat) {
    HoldsImage(window, kphys, kp) && HoldsGrants(window, fw, kp) && EndsAtRefusal(window, fw, kp)
  }

  lemma {:induction false} ImageInOrder(fw: nat -> Grant, base: nat, kphys: nat, kp: nat)
    requires Honest(fw, base, kphys, kp)
    ensures HoldsImage(WindowMap(fw, kphys, kp), kphys, kp)
  {
    forall page: nat | page < kp ensures WindowTarget(fw, kphys, kp, page) == Some(kphys + page * PAGE) {
      ImageUnrefused(fw, base, kphys, kp, page);
    }
  }

  lemma {:induction false} GrantMapped(fw: nat -> Grant, base: nat, kphys: nat, kp: nat, page: nat, n: nat)
    requires Honest(fw, base, kphys, kp) && page == kp + n
    ensures GrantAt(WindowMap(fw, kphys, kp), fw, page, n)
  {
    if GrantedTo(fw, n + 1) { WindowUnrefused(fw, base, kphys, kp, page, n); }
  }

  lemma {:induction false} GrantsInOrder(fw: nat -> Grant, base: nat, kphys: nat, kp: nat)
    requires Honest(fw, base, kphys, kp)
    ensures HoldsGrants(WindowMap(fw, kphys, kp), fw, kp)
  {
    forall page: nat, n: nat | page == kp + n ensures GrantAt(WindowMap(fw, kphys, kp), fw, page, n) {
      GrantMapped(fw, base, kphys, kp, page, n);
    }
  }

  lemma {:induction false} RefusalInOrder(fw: nat -> Grant, kphys: nat, kp: nat)
    ensures EndsAtRefusal(WindowMap(fw, kphys, kp), fw, kp)
  {
    forall page: nat, n: nat | page == kp + n ensures HoleAt(WindowMap(fw, kphys, kp), fw, page, n) {
      if GrantedTo(fw, n) && fw(n).Denied? { HoleAtRefusal(fw, kphys, kp, n, page); }
    }
  }

  lemma {:induction false} WindowInOrder(fw: nat -> Grant, base: nat, kphys: nat, kp: nat)
    requires Honest(fw, base, kphys, kp)
    ensures InOrder(WindowMap(fw, kphys, kp), fw, kphys, kp)
  {
    ImageInOrder(fw, base, kphys, kp);
    GrantsInOrder(fw, base, kphys, kp);
    RefusalInOrder(fw, kphys, kp);
  }

  ghost predicate Whole(window: nat -> Option<nat>) { forall page: nat :: page < WINDOW_PAGES ==> window(page).Some? }

  lemma {:induction false} FirstRefusal(fw: nat -> Grant, n: nat) returns (i: nat)
    requires !GrantedTo(fw, n)
    ensures i < n && GrantedTo(fw, i) && fw(i).Denied?
  {
    if GrantedTo(fw, n - 1) { i := n - 1; } else { i := FirstRefusal(fw, n - 1); }
  }

  lemma {:induction false} WholeInOrder(window: nat -> Option<nat>, fw: nat -> Grant, kphys: nat, kp: nat)
    requires InOrder(window, fw, kphys, kp)
    ensures Whole(window) <==> GrantedTo(fw, WINDOW_PAGES - kp)
  {
    if GrantedTo(fw, WINDOW_PAGES - kp) {
      forall page: nat | page < WINDOW_PAGES ensures window(page).Some? {
        if page >= kp {
          var n := page - kp;
          assert GrantedTo(fw, n + 1) && GrantAt(window, fw, page, n);
        }
      }
    } else {
      var n := FirstRefusal(fw, WINDOW_PAGES - kp);
      assert HoleAt(window, fw, kp + n, n);
    }
  }

  /** The whole 64 MiB window is mapped exactly when none of the calls for pages behind the kernel image is refused. */
  lemma {:induction false} WholeWindowExact(fw: nat -> Grant, base: nat, kphys: nat, kp: nat)
    requires Honest(fw, base, kphys, kp)
    ensures Whole(WindowMap(fw, kphys, kp)) <==> GrantedTo(fw, WINDOW_PAGES - kp)
  {
    WindowInOrder(fw, base, kphys, kp);
    WholeInOrder(WindowMap(fw, kphys, kp), fw, kphys, kp);
  }

  /** The image, and then page after page what the firmware grants. */
  function UnrefusedMap(fw: nat -> Grant, kphys: nat, kp: nat): nat -> Option<nat> {
    (page: nat) =>
      if page < kp then Some(kphys + page * PAGE)
      else match fw(page - kp) case Granted(a) => Some(a) case Denied => None
  }

  lemma {:induction false} SameWindow(f: nat -> Option<nat>, g: nat -> Option<nat>, v: nat)
    requires forall page: nat :: page < WINDOW_PAGES ==> f(page) == g(page)
    ensures Translation(f, v) == Translation(g, v)
  {}

  lemma {:induction false} MapUnrefused(window: nat -> Option<nat>, fw: nat -> Grant, kphys: nat, kp: nat, page: nat)
    requires InOrder(window, fw, kphys, kp) && GrantedTo(fw, WINDOW_PAGES - kp) && page < WINDOW_PAGES
    ensures window(page) == UnrefusedMap(fw, kphys, kp)(page)
  {
    if page >= kp {
      var n := page - kp;
      assert GrantedTo(fw, n + 1) && GrantAt(window, fw, page, n);
    }
  }

  lemma {:induction false} TranslationUnrefused(base: nat, fw: nat -> Grant, kphys: nat, kp: nat, v: nat)
    requires Honest(fw, base, kphys, kp) && GrantedTo(fw, WINDOW_PAGES - kp)
    ensures Translation(WindowMap(fw, kphys, kp), v) == Translation(UnrefusedMap(fw, kphys, kp), v)
  {
    var window := WindowMap(fw, kphys, kp);
    WindowInOrder(fw, base, kphys, kp);
    forall page: nat | page < WINDOW_PAGES ensures window(page) == UnrefusedMap(fw, kphys, kp)(page) {
      MapUnrefused(window, fw, kphys, kp, page);
    }
    SameWindow(window, UnrefusedMap(fw, kphys, kp), v);
  }

  /** With no refusal the walk is defined on exactly the three windows, and the kernel window is linear in the image. */
  lemma {:induction false} WalkUnrefused(mem: Memory, base: nat, fw: nat -> Grant, kphys: nat, kp: nat, v: nat)
    requires Honest(fw, base, kphys, kp) && TablesBuilt(mem, base, fw, kphys, kp) && v < VIRT_LIMIT
    requires GrantedTo(fw, WINDOW_PAGES - kp)
    ensures Walk(mem, Pool(base, 0), v) == Translation(UnrefusedMap(fw, kphys, kp), v)
  {
    WalkExact(mem, base, fw, kphys, kp, v);
    TranslationUnrefused(base, fw, kphys, kp, v);
  }

  /** A firmware that grants 16384 pages from 256 MiB on and then has no more. */
  function Generous(n: nat): Grant { if n < WINDOW_PAGES then Granted(0x1000_0000 + n * PAGE) else Denied }

  /** The promises of the firmware can be kept while nothing the setup asks for is refused. */
  lemma {:induction false} GenerousIsHonest(kp: nat)
    requires kp <= WINDOW_PAGES
    ensures Honest(Generous, 0x1_0000, 0x20_0000, kp) && GrantedTo(Generous, WINDOW_PAGES)
  {}
}
