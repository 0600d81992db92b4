/** How each change to a page-table entry keeps the swap bitmap and the entries consistent
    (`Paging.SwapOk`). */
module SwapUse {
  import opened Kernel
  import opened Paging

  lemma Unrelated(swapMap: seq<bool>, swap: map<nat, Page>, usable: set<nat>, slotOf: map<nat, Loc>,
                  pte: map<Loc, Pte>, pte': map<Loc, Pte>)
    requires SwapOk(swapMap, swap, usable, slotOf, pte)
    requires forall m, n :: m in pte && pte[m] == Swapped(n) <==> m in pte' && pte'[m] == Swapped(n)
    ensures SwapOk(swapMap, swap, usable, slotOf, pte')
  {
  }

  lemma Free(swapMap: seq<bool>, swap: map<nat, Page>, usable: set<nat>, slotOf: map<nat, Loc>,
             pte: map<Loc, Pte>, pte': map<Loc, Pte>, l: Loc)
    requires SwapOk(swapMap, swap, usable, slotOf, pte) && l in pte && pte[l].Swapped?
    requires pte' - {l} == pte - {l} && (l in pte' ==> pte'[l].Present?)
    ensures 0 < pte[l].slot < |swapMap| && !swapMap[pte[l].slot]
    ensures SwapOk(swapMap[pte[l].slot := true], swap, usable, slotOf - {pte[l].slot}, pte')
  {
    forall m | m != l ensures (m in pte <==> m in pte') && (m in pte ==> pte[m] == pte'[m]) {
      assert m in pte - {l} <==> m in pte' - {l};
      if m in pte { assert (pte - {l})[m] == (pte' - {l})[m]; }
    }
  }

  lemma Take(swapMap: seq<bool>, swap: map<nat, Page>, usable: set<nat>, slotOf: map<nat, Loc>,
             pte: map<Loc, Pte>, l: Loc, n: nat, page: Page)
    requires SwapOk(swapMap, swap, usable, slotOf, pte) && (l in pte ==> pte[l].Present?)
    requires 0 < n < |swapMap| && swapMap[n] && |page| == PAGE_SIZE
    ensures forall m | m in pte :: pte[m] != Swapped(n)
    ensures SwapOk(swapMap[n := false], swap[n := page], usable, slotOf[n := l], pte[l := Swapped(n)])
  {
  }

  lemma Move(swapMap: seq<bool>, swap: map<nat, Page>, usable: set<nat>, slotOf: map<nat, Loc>,
             pte: map<Loc, Pte>, from: Loc, to: Loc)
    requires SwapOk(swapMap, swap, usable, slotOf, pte) && from in pte && pte[from].Swapped? && to !in pte
    ensures SwapOk(swapMap, swap, usable, slotOf[pte[from].slot := to], (pte - {from})[to := pte[from]])
  {
  }
}
