/** The 32-bit allocators of usbmux tags and DTX message ids: count up, skip zero on wrap-around. */
module Ids {
  import opened Bytes

  const PERIOD: int := 0xFFFF_FFFF

  /** `wrapping_add(1).max(1)` */
  function Next(id: u32): (n: u32)
    ensures n != 0
  {
    var w := (id + 1) % TWO_32;
    if w > 1 then w else 1
  }

  /** The k-th allocation of an allocator that starts at `first`. */
  function Allocation(first: u32, k: nat): (id: u32)
    requires first != 0
    ensures id != 0
  {
    if k == 0 then first else Next(Allocation(first, k - 1))
  }

  lemma {:induction false} AllocationClosed(first: u32, k: nat)
    requires first != 0
    ensures Allocation(first, k) == (first - 1 + k) % PERIOD + 1
  {
    if k > 0 {
      AllocationClosed(first, k - 1);
      ModNext(first - 1 + (k - 1));
    }
  }

  lemma ModNext(x: nat)
    ensures (x + 1) % PERIOD == if x % PERIOD == PERIOD - 1 then 0 else x % PERIOD + 1
  {}

  /** Ids repeat exactly at multiples of 2^32 - 1 allocations. */
  lemma RepeatsAtPeriod(first: u32, i: nat, j: nat)
    requires first != 0 && i <= j
    ensures Allocation(first, i) == Allocation(first, j) <==> (j - i) % PERIOD == 0
  {
    AllocationClosed(first, i);
    AllocationClosed(first, j);
    SameRemainder(first - 1 + i, first - 1 + j);
  }

  lemma SameRemainder(x: nat, y: nat)
    requires x <= y
    ensures x % PERIOD == y % PERIOD <==> (y - x) % PERIOD == 0
  {}
}
