/** The whole page-table setup of boot/bootloader.c, from an empty loader to the translation it gives. */
module BootSetup {
  import opened BootPaging
  import opened BootLoader
  import opened BootTheorems

  /** Where the pool is: at the first grant, or nowhere. */
  function PoolAt(low: Grant, high: Grant): nat {
    if low.Granted? then low.addr else if high.Granted? then high.addr else 0
  }

  /**
   Reserve and clear the pool, take the fixed tables, map the windows: unless
   the firmware grants no pool, every 64-bit address is then translated as intended.
   */
  method SetUp(loader: Loader, low: Grant, high: Grant, kphys: nat, ksize: nat, fw: nat -> Grant) returns (ok: bool)
    requires PoolAt(low, high) != 0 ==> Honest(fw, PoolAt(low, high), kphys, KernelPages(ksize))
    modifies loader
    ensures ok <==> PoolAt(low, high) != 0
    ensures ok ==> forall v: nat :: v < VIRT_LIMIT ==>
              Walk(loader.mem, loader.pml4, v) == Translation(WindowMap(fw, kphys, KernelPages(ksize)), v)
  {
    ok := loader.InitPageTables(low, high);
    if ok {
      loader.SetupHigherHalfPaging(kphys, ksize, fw);
      forall v: nat | v < VIRT_LIMIT
        ensures Walk(loader.mem, loader.pml4, v) == Translation(WindowMap(fw, kphys, KernelPages(ksize)), v)
      {
        WalkExact(loader.mem, loader.poolBase, fw, kphys, KernelPages(ksize), v);
      }
    }
  }
}
