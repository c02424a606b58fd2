/**
 * The boot-time vmemmap bump allocator of mm/sparse-vmemmap.c: the window
 * [vmemmap_buf, vmemmap_buf_end) that __vmemmap_alloc_block_buf carves
 * size-aligned blocks from, falling back to the early memblock allocator,
 * and the window setup and teardown of sparse_mem_maps_populate_node.
 *
 * Addresses are naturals and 0 is NULL. The page tables above the pte level
 * are not part of this model: a virtual page of the memory map is either
 * backed (its pte holds a block) or not.
 */
module SparseVmemmap {
  import opened FixedPoint

  const NULL: nat := 0

  // Header constants; values are not part of this model.
  const PAGE_SIZE: Positive
  const PMD_SIZE: Positive
  /** sizeof(struct page). */
  const STRUCT_PAGE_SIZE: Positive
  const PAGES_PER_SECTION: Positive
  /** Virtual base of the memory map (the `vmemmap` array of struct page). */
  const VMEMMAP_START: nat

  /** A run of `size` bytes at address `addr`. */
  datatype Block = Block(addr: nat, size: nat)

  function End(b: Block): (e: nat)
  {
    b.addr + b.size
  }

  /** Two blocks share no byte. */
  predicate Disjoint(a: Block, b: Block)
  {
    End(a) <= b.addr || End(b) <= a.addr
  }

  /** No two blocks of the sequence share a byte. */
  ghost predicate PairwiseDisjoint(bs: seq<Block>)
  {
    forall i, j :: 0 <= i < j < |bs| ==> Disjoint(bs[i], bs[j])
  }

  /** ALIGN(x, a): `x` rounded up to the next multiple of `a`. */
  function Align(x: nat, a: Positive): (r: nat)
    ensures r % a == 0
    ensures x <= r < x + a
    ensures x % a == 0 ==> r == x
  {
    AlignBounds(x, a);
    (x + a - 1) / a * a
  }

  lemma AlignBounds(x: nat, a: Positive)
    ensures var r := (x + a - 1) / a * a;
            r >= 0 && r % a == 0 && x <= r < x + a && (x % a == 0 ==> r == x)
  {
    var q := (x + a - 1) / a;
    var m := (x + a - 1) % a;
    assert x + a - 1 == q * a + m;
    assert q >= 0;
    MultipleMod(q, a);
    if x % a == 0 {
      var k := x / a;
      assert x == k * a;
      assert x + a - 1 == k * a + (a - 1);
      DivUnique(x + a - 1, a, k, a - 1);
    }
  }

  lemma MultipleMod(q: nat, a: Positive)
    ensures q * a >= 0 && (q * a) % a == 0
  {
    DivUnique(q * a, a, q, 0);
  }

  /** Division by a positive divisor has one quotient and one remainder. */
  lemma DivUnique(n: nat, a: Positive, q: nat, m: nat)
    requires n == q * a + m && m < a
    ensures n / a == q && n % a == m
  {
    var q' := n / a;
    var m' := n % a;
    assert q * a - q' * a == m' - m;
    assert q * a - q' * a == (q - q') * a;
    OnlyZeroBelow(q - q', a);
  }

  /** The only multiple of `a` strictly between -a and a is 0. */
  lemma OnlyZeroBelow(k: int, a: Positive)
    requires -(a as int) < k * a < a
    ensures k == 0
  {
    NonzeroMultiple(k, a);
  }

  /** A nonzero multiple of `a` is at least `a` away from 0. */
  lemma NonzeroMultiple(k: int, a: Positive)
    ensures k >= 1 ==> k * a >= a
    ensures k <= -1 ==> k * a <= -(a as int)
  {
    if k >= 1 {
      assert k * a == a + (k - 1) * a;
    } else if k <= -1 {
      assert k * a == -(a as int) + (k + 1) * a;
    }
  }

  /** pfn_to_page(pnum * PAGES_PER_SECTION): where the struct pages of section `pnum` start in the memory map. */
  function SectionMap(pnum: nat): (r: nat)
    ensures r >= VMEMMAP_START
  {
    VMEMMAP_START + pnum * PAGES_PER_SECTION * STRUCT_PAGE_SIZE
  }

  /** Bytes of memory map one section needs: sizeof(struct page) * PAGES_PER_SECTION. */
  const SECTION_MAP_BYTES: Positive := STRUCT_PAGE_SIZE * PAGES_PER_SECTION

  /** Consecutive sections' struct pages lie back to back in the memory map. */
  lemma SectionMapStep(pnum: nat)
    ensures SectionMap(pnum) + SECTION_MAP_BYTES == SectionMap(pnum + 1)
  {
  }

  /** The struct-page ranges of two different sections never overlap. */
  lemma SectionMapsDisjoint(p: nat, q: nat)
    requires p != q
    ensures Disjoint(Block(SectionMap(p), SECTION_MAP_BYTES), Block(SectionMap(q), SECTION_MAP_BYTES))
  {
    var lo, hi := if p < q then p else q, if p < q then q else p;
    SectionMapStep(lo);
    MulMonotone(lo + 1, hi, PAGES_PER_SECTION);
    MulMonotone((lo + 1) * PAGES_PER_SECTION, hi * PAGES_PER_SECTION, STRUCT_PAGE_SIZE);
    assert SectionMap(lo) + SECTION_MAP_BYTES <= SectionMap(hi);
  }

  /** Where __vmemmap_alloc_block_buf takes a block of `size` bytes from: the window, or the fallback allocator. */
  datatype Carve = FromWindow(ptr: nat) | Fallback

  /** The decision __vmemmap_alloc_block_buf makes for the window [buf, bufEnd). */
  function WindowCarve(buf: nat, bufEnd: nat, size: Positive): (c: Carve)
    // a carve is the first size-aligned block at or after buf, and lies inside the window
    ensures c.FromWindow? ==>
              c.ptr % size == 0 && buf <= c.ptr < buf + size && c.ptr + size <= bufEnd
    // the fallback is taken exactly when there is no window or that block would pass its end
    ensures c.Fallback? <==> buf == NULL || Align(buf, size) + size > bufEnd
  {
    if buf == NULL then Fallback
    else
      var ptr := Align(buf, size);
      if ptr + size > bufEnd then Fallback else FromWindow(ptr)
  }

  /** The window start after a carve. */
  function BufAfter(buf: nat, c: Carve, size: Positive): (next: nat)
  {
    if c.FromWindow? then c.ptr + size else buf
  }

  /** The decisions of `n` successive requests of `size` bytes against the window [buf, bufEnd). */
  function CarveRun(buf: nat, bufEnd: nat, size: Positive, n: nat): (run: seq<Carve>)
    ensures |run| == n
    decreases n
  {
    if n == 0 then []
    else
      var c := WindowCarve(buf, bufEnd, size);
      [c] + CarveRun(BufAfter(buf, c, size), bufEnd, size, n - 1)
  }

  /**
   * A window whose start is aligned to `size` and which has room for `n`
   * blocks serves all `n` requests itself, back to back from its start.
   */
  lemma {:induction false} AlignedWindowFits(buf: nat, bufEnd: nat, size: Positive, n: nat)
    requires buf != NULL && buf % size == 0 && buf + n * size <= bufEnd
    ensures var run := CarveRun(buf, bufEnd, size, n);
            && (forall i :: 0 <= i < n ==> run[i].FromWindow?)
            && (n > 0 ==> run[0].ptr == buf)
            && (forall i :: 0 <= i < n - 1 ==> run[i + 1].ptr == run[i].ptr + size)
    decreases n
  {
    if n > 0 {
      var next := buf + size;
      MulSucc(n - 1, size);
      assert WindowCarve(buf, bufEnd, size) == FromWindow(buf);
      NextAligned(buf, size);
      AlignedWindowFits(next, bufEnd, size, n - 1);
      var rest := CarveRun(next, bufEnd, size, n - 1);
      var run := CarveRun(buf, bufEnd, size, n);
      assert run == [FromWindow(buf)] + rest;
      assert forall i :: 1 <= i < n ==> run[i] == rest[i - 1];
    }
  }

  lemma MulSucc(i: nat, size: int)
    ensures (i + 1) * size == i * size + size
  {
  }

  /** The block after an aligned one is aligned too. */
  lemma NextAligned(buf: nat, size: Positive)
    requires buf % size == 0
    ensures (buf + size) % size == 0
  {
    DivUnique(buf + size, size, buf / size + 1, 0);
  }

  /** The window start only moves up, and a closed window stays closed. */
  predicate WindowShrinks(before: nat, after: nat)
  {
    if before == NULL then after == NULL else before <= after
  }

  /**
   * `buf` is where carving from `low` has got to: still at `low`, or at the end
   * of a block at or above `low` that was issued at index `from` or later.
   */
  ghost predicate CarvedTo(issued: seq<Block>, from: nat, low: nat, buf: nat)
  {
    buf == low || exists i :: from <= i < |issued| && low <= issued[i].addr && End(issued[i]) == buf
  }

  /** Carving from `b0` to `b1` and then from `b1` to `b2` is carving from `b0` to `b2`. */
  lemma CarvedToTrans(is1: seq<Block>, is2: seq<Block>, from: nat, b0: nat, b1: nat, b2: nat)
    requires from <= |is1| <= |is2| && is2[..|is1|] == is1 && b0 <= b1
    requires CarvedTo(is1, from, b0, b1) && CarvedTo(is2, |is1|, b1, b2)
    ensures CarvedTo(is2, from, b0, b2)
  {
    if b2 == b1 {
      if b1 != b0 {
        var i :| from <= i < |is1| && b0 <= is1[i].addr && End(is1[i]) == b1;
        assert is2[i] == is2[..|is1|][i];
      }
    } else {
      var j :| |is1| <= j < |is2| && b1 <= is2[j].addr && End(is2[j]) == b2;
      assert from <= j;
    }
  }

  /** The start of every PAGE_SIZE block in `issued`. */
  ghost function IssuedPages(issued: seq<Block>): set<nat>
  {
    set i | 0 <= i < |issued| && issued[i].size == PAGE_SIZE :: issued[i].addr
  }

  /** Every mapped page is backed by a PAGE_SIZE block the allocator handed out. */
  ghost predicate PtesIssued(pte: map<nat, nat>, issued: seq<Block>)
  {
    pte.Values <= IssuedPages(issued)
  }

  /** Issuing more blocks keeps every earlier page start. */
  lemma IssuedPagesGrow(before: seq<Block>, after: seq<Block>)
    requires before <= after
    ensures IssuedPages(before) <= IssuedPages(after)
  {
    forall p | p in IssuedPages(before)
      ensures p in IssuedPages(after)
    {
      var i :| 0 <= i < |before| && before[i].size == PAGE_SIZE && before[i].addr == p;
      assert after[i] == before[i];
    }
  }

  /** The block behind a mapped page is one of the issued blocks. */
  lemma PteBlockIssued(pte: map<nat, nat>, issued: seq<Block>, a: nat)
    requires PtesIssued(pte, issued) && a in pte
    ensures exists i :: 0 <= i < |issued| && issued[i] == Block(pte[a], PAGE_SIZE)
  {
    assert pte[a] in pte.Values;
  }

  /** The number of the virtual page holding address `a`; pte_offset_kernel picks the pte by it. */
  function PageOf(a: nat): (n: nat)
    ensures n * PAGE_SIZE <= a < n * PAGE_SIZE + PAGE_SIZE
  {
    DivUnique(a, PAGE_SIZE, a / PAGE_SIZE, a % PAGE_SIZE);
    a / PAGE_SIZE
  }

  /**
   * Page `n` is one the walk of vmemmap_populate_basepages over [start, end)
   * touches: the walk visits start, start + PAGE_SIZE, ... below `end`, and
   * its k-th address lies in page PageOf(start) + k.
   */
  predicate WalkedPage(n: nat, start: nat, end: nat)
  {
    PageOf(start) <= n && start + (n - PageOf(start)) * PAGE_SIZE < end
  }

  /** Every page of the section map starting at `mapAddr` has a pte. */
  ghost predicate SectionBacked(pte: map<nat, nat>, mapAddr: nat)
  {
    forall n :: WalkedPage(n, mapAddr, mapAddr + SECTION_MAP_BYTES) ==> n in pte
  }

  /** Page `n` belongs to the memory map of a present section in [pnumBegin, pnumEnd). */
  ghost predicate InPresentSection(n: nat, pnumBegin: nat, pnumEnd: nat, present: nat -> bool)
  {
    exists q :: pnumBegin <= q < pnumEnd && present(q) && WalkedPage(n, SectionMap(q), SectionMap(q) + SECTION_MAP_BYTES)
  }

  /** `after` keeps every entry of `before`. */
  ghost predicate Extends(after: map<nat, nat>, before: map<nat, nat>)
  {
    forall a :: a in before ==> a in after && after[a] == before[a]
  }

  /**
   * The ptes after populating the present sections in [pnumBegin, pnum):
   * each of them is backed, every entry of `before` is kept, and every new
   * entry is a page of one of them.
   */
  ghost predicate SectionsPopulated(before: map<nat, nat>, pte: map<nat, nat>, pnumBegin: nat, pnum: nat,
                                    present: nat -> bool)
  {
    && (forall q :: pnumBegin <= q < pnum && present(q) ==> SectionBacked(pte, SectionMap(q)))
    && Extends(pte, before)
    && (forall n :: n in pte && n !in before ==> InPresentSection(n, pnumBegin, pnum, present))
  }

  /** Populating present section `pnum` extends the populated range by one. */
  lemma SectionsStep(before: map<nat, nat>, mid: map<nat, nat>, after: map<nat, nat>, pnumBegin: nat, pnum: nat,
                     present: nat -> bool)
    requires pnumBegin <= pnum && present(pnum)
    requires SectionsPopulated(before, mid, pnumBegin, pnum, present)
    requires Extends(after, mid) && SectionBacked(after, SectionMap(pnum))
    requires forall n :: n in after && n !in mid ==> WalkedPage(n, SectionMap(pnum), SectionMap(pnum) + SECTION_MAP_BYTES)
    ensures SectionsPopulated(before, after, pnumBegin, pnum + 1, present)
  {
    forall q | pnumBegin <= q < pnum && present(q)
      ensures SectionBacked(after, SectionMap(q))
    {
      BackedStays(mid, after, SectionMap(q));
    }
    forall n | n in after && n !in before
      ensures InPresentSection(n, pnumBegin, pnum + 1, present)
    {
      if n in mid {
        var q :| pnumBegin <= q < pnum && present(q) && WalkedPage(n, SectionMap(q), SectionMap(q) + SECTION_MAP_BYTES);
      } else {
        assert WalkedPage(n, SectionMap(pnum), SectionMap(pnum) + SECTION_MAP_BYTES);
      }
    }
  }

  /** Skipping an absent section extends the populated range without changing the ptes. */
  lemma SectionsSkip(before: map<nat, nat>, pte: map<nat, nat>, pnumBegin: nat, pnum: nat, present: nat -> bool)
    requires !present(pnum)
    requires SectionsPopulated(before, pte, pnumBegin, pnum, present)
    ensures SectionsPopulated(before, pte, pnumBegin, pnum + 1, present)
  {
    forall n | n in pte && n !in before
      ensures InPresentSection(n, pnumBegin, pnum + 1, present)
    {
      var q :| pnumBegin <= q < pnum && present(q) && WalkedPage(n, SectionMap(q), SectionMap(q) + SECTION_MAP_BYTES);
    }
  }

  /** Populating more pages never unbacks a section. */
  lemma BackedStays(before: map<nat, nat>, after: map<nat, nat>, mapAddr: nat)
    requires Extends(after, before) && SectionBacked(before, mapAddr)
    ensures SectionBacked(after, mapAddr)
  {
  }

  /**
   * The early memblock allocator the window and the fallback blocks come
   * from, as a stand-in: a bump pointer that never hands the same byte out
   * twice, and the record of what was given back.
   */
  class Memblock {
    var top: nat
    ghost var freed: seq<Block>

    constructor(base: nat)
      requires base > 0
      ensures top == base && freed == []
    {
      top := base;
      freed := [];
    }

    /**
     * memblock_virt_alloc_try_nid_nopanic behind __earlyonly_bootmem_alloc:
     * the BUG_ON there means a caller never sees NULL.
     */
    method AllocTryNid(size: nat, align: Positive, node: int) returns (p: nat)
      requires top > 0
      modifies this`top
      ensures p != NULL && p % align == 0
      ensures old(top) <= p && top == p + size
    {
      p := Align(top, align);
      top := p + size;
    }

    /** memblock_free_early: give [base, base + size) back. */
    method FreeEarly(base: nat, size: nat)
      modifies this`freed
      ensures freed == old(freed) + [Block(base, size)]
    {
      freed := freed + [Block(base, size)];
    }
  }

  /** The file-scope window pointers, the vmemmap pte entries they back and the allocator behind them. */
  class Vmemmap {
    var buf: nat                 // vmemmap_buf
    var bufEnd: nat              // vmemmap_buf_end
    var pte: map<nat, nat>       // page number (PageOf) in the memory map -> backing block
    const mb: Memblock
    /** Every block __vmemmap_alloc_block_buf has handed out, in order. */
    ghost var issued: seq<Block>

    /**
     * The window is either closed (both pointers NULL) or open inside
     * memory the allocator has already handed out; no block issued so far
     * overlaps another or what is left of the window; and every pte points at
     * a PAGE_SIZE block that was issued.
     */
    ghost predicate Valid()
      reads this, mb
    {
      && mb.top > 0
      && (buf == NULL ==> bufEnd == NULL)
      && (buf != NULL ==> buf <= bufEnd <= mb.top)
      && (forall i :: 0 <= i < |issued| ==>
            && issued[i].addr != NULL
            && End(issued[i]) <= mb.top
            && (buf != NULL ==> End(issued[i]) <= buf || bufEnd <= issued[i].addr))
      && PairwiseDisjoint(issued)
      && PtesIssued(pte, issued)
    }

    constructor(allocator: Memblock)
      requires allocator.top > 0
      ensures Valid()
      ensures mb == allocator && buf == NULL && bufEnd == NULL && pte == map[] && issued == []
    {
      mb := allocator;
      buf := NULL;
      bufEnd := NULL;
      pte := map[];
      issued := [];
    }

    /** vmemmap_alloc_block: a block of `size` bytes aligned to `size`, straight from memblock. */
    method AllocBlock(size: Positive, node: int) returns (p: nat)
      requires Valid()
      modifies mb`top, this`issued
      ensures Valid()
      ensures p != NULL && p % size == 0
      ensures old(mb.top) <= p && mb.top == p + size
      ensures issued == old(issued) + [Block(p, size)]
    {
      p := mb.AllocTryNid(size, size, node);
      IssuedPagesGrow(issued, issued + [Block(p, size)]);
      issued := issued + [Block(p, size)];
    }

    /** __vmemmap_alloc_block_buf: carve an aligned block from the window, or fall back to memblock. */
    method AllocBlockBuf(size: Positive, node: int) returns (p: nat)
      requires Valid()
      modifies this`buf, this`issued, mb`top
      ensures Valid()
      ensures p != NULL && p % size == 0
      ensures issued == old(issued) + [Block(p, size)]
      // the new block overlaps nothing handed out before
      ensures forall i :: 0 <= i < |old(issued)| ==> Disjoint(old(issued)[i], Block(p, size))
      // the window's decision: carve its next aligned piece and shrink past it, or leave it and use memblock
      ensures var c := WindowCarve(old(buf), bufEnd, size);
              && buf == BufAfter(old(buf), c, size)
              && (c.FromWindow? ==> p == c.ptr && mb.top == old(mb.top))
              && (c.Fallback? ==> old(mb.top) <= p && mb.top == p + size)
      ensures CarvedTo(issued, |old(issued)|, old(buf), buf)
    {
      if buf == NULL {
        p := AllocBlock(size, node);
        return;
      }

      // the first size-aligned address in the window
      var ptr := Align(buf, size);
      if ptr + size > bufEnd {
        p := AllocBlock(size, node);
        return;
      }

      buf := ptr + size;
      p := ptr;
      IssuedPagesGrow(issued, issued + [Block(p, size)]);
      issued := issued + [Block(p, size)];
      assert issued[|old(issued)|] == Block(p, size);
    }

    /** vmemmap_pte_populate: back the page holding `addr` with a fresh PAGE_SIZE block unless it already is. */
    method PtePopulate(addr: nat, node: int)
      requires Valid()
      modifies this`buf, this`issued, this`pte, mb`top
      ensures Valid()
      ensures PageOf(addr) in pte
      ensures pte == old(pte)[PageOf(addr) := pte[PageOf(addr)]]
      ensures PageOf(addr) in old(pte) ==> pte == old(pte) && issued == old(issued) && buf == old(buf)
      ensures PageOf(addr) !in old(pte) ==>
                && |issued| == |old(issued)| + 1
                && issued[|old(issued)|] == Block(pte[PageOf(addr)], PAGE_SIZE)
      ensures WindowShrinks(old(buf), buf)
      ensures old(issued) <= issued
      ensures CarvedTo(issued, |old(issued)|, old(buf), buf)
    {
      var n := PageOf(addr);
      if n !in pte {
        var p := AllocBlockBuf(PAGE_SIZE, node);
        pte := pte[n := p];
      }
    }

    /** vmemmap_populate_basepages at the pte level: back every page of [start, end). */
    method PopulateBasepages(start: nat, end: nat, node: int)
      requires Valid()
      modifies this`buf, this`issued, this`pte, mb`top
      ensures Valid()
      ensures WindowShrinks(old(buf), buf)
      ensures forall n :: WalkedPage(n, start, end) ==> n in pte
      // entries already there are kept; only the walked pages gain one
      ensures Extends(pte, old(pte))
      ensures forall n :: n in pte && n !in old(pte) ==> WalkedPage(n, start, end)
      ensures old(issued) <= issued
      ensures CarvedTo(issued, |old(issued)|, old(buf), buf)
    {
      var addr := start;
      ghost var k: nat := 0;
      ghost var first := PageOf(start);
      while addr < end
        invariant Valid()
        invariant WindowShrinks(old(buf), buf)
        invariant addr == start + k * PAGE_SIZE
        invariant k == 0 || start + (k - 1) * PAGE_SIZE < end
        invariant WalkedSoFar(old(pte), pte, first, k)
        invariant old(issued) <= issued
        invariant CarvedTo(issued, |old(issued)|, old(buf), buf)
        decreases end - addr
      {
        PageOfStep(start, k);
        WalkOne(addr, node, old(pte), first, k, |old(issued)|, old(buf));
        MulSucc(k, PAGE_SIZE);
        addr := addr + PAGE_SIZE;
        k := k + 1;
      }
      WalkedPrefix(start, end, k);
    }

    /** One step of that walk: back the page holding `addr`, the k-th page after page `first`. */
    method WalkOne(addr: nat, node: int, ghost before: map<nat, nat>, ghost first: nat, ghost k: nat,
                   ghost from: nat, ghost low: nat)
      requires Valid()
      requires PageOf(addr) == first + k
      requires WalkedSoFar(before, pte, first, k)
      requires from <= |issued| && low <= buf && CarvedTo(issued, from, low, buf)
      modifies this`buf, this`issued, this`pte, mb`top
      ensures Valid()
      ensures WindowShrinks(old(buf), buf)
      ensures WalkedSoFar(before, pte, first, k + 1)
      ensures old(issued) <= issued
      ensures CarvedTo(issued, from, low, buf)
    {
      PtePopulate(addr, node);
      WalkedStep(before, old(pte), pte, first, k);
      CarvedToTrans(old(issued), issued, from, low, old(buf), buf);
    }

    /** sparse_mem_map_populate: back the struct pages of section `pnum` and return where they start. */
    method SectionPopulate(pnum: nat, nid: int) returns (mapAddr: nat)
      requires Valid()
      modifies this`buf, this`issued, this`pte, mb`top
      ensures Valid()
      ensures WindowShrinks(old(buf), buf)
      ensures mapAddr == SectionMap(pnum)
      ensures SectionBacked(pte, mapAddr)
      // existing ptes are kept; only the section's own pages gain one
      ensures Extends(pte, old(pte))
      ensures forall n :: n in pte && n !in old(pte) ==> WalkedPage(n, mapAddr, mapAddr + SECTION_MAP_BYTES)
      ensures old(issued) <= issued
      ensures CarvedTo(issued, |old(issued)|, old(buf), buf)
    {
      // the section's struct pages sit at a fixed place in the virtual memory map
      mapAddr := SectionMap(pnum);
      var start := mapAddr;
      var end := mapAddr + SECTION_MAP_BYTES;
      PopulateBasepages(start, end, nid);
    }

    /**
     * sparse_mem_maps_populate_node: open a PMD-aligned window large enough
     * for `mapCount` sections, populate every present section in
     * [pnumBegin, pnumEnd), then give the unused rest of the window back and
     * close it.
     */
    method PopulateNode(mapMap: array<nat>, pnumBegin: nat, pnumEnd: nat, mapCount: nat, nodeid: int,
                        present: nat -> bool)
      requires Valid()
      requires pnumEnd <= mapMap.Length
      modifies this`buf, this`bufEnd, this`issued, this`pte, mb`top, mb`freed, mapMap
      ensures Valid()
      // the window is closed again
      ensures buf == NULL && bufEnd == NULL
      // every present section's map is recorded and backed; nothing else in map_map changes
      ensures forall pnum :: pnumBegin <= pnum < pnumEnd && present(pnum) ==> mapMap[pnum] == SectionMap(pnum)
      ensures forall pnum :: pnumBegin <= pnum < pnumEnd && present(pnum) ==> SectionBacked(pte, SectionMap(pnum))
      ensures forall i :: 0 <= i < mapMap.Length && !(pnumBegin <= i < pnumEnd && present(i)) ==>
                mapMap[i] == old(mapMap[i])
      // existing ptes are kept; only pages of present sections gain one
      ensures Extends(pte, old(pte))
      ensures forall n :: n in pte && n !in old(pte) ==> InPresentSection(n, pnumBegin, pnumEnd, present)
      // exactly one block is given back: the tail of a window of mapCount PMD-rounded sections
      ensures |mb.freed| == |old(mb.freed)| + 1 && mb.freed[..|old(mb.freed)|] == old(mb.freed)
      ensures var rest := mb.freed[|old(mb.freed)|];
              exists start: nat :: start >= old(mb.top) && start % PMD_SIZE == 0 &&
                start <= rest.addr && End(rest) == start + Align(SECTION_MAP_BYTES, PMD_SIZE) * mapCount &&
                // it starts at the window start, or where the last block carved from the window ends
                CarvedTo(issued, |old(issued)|, start, rest.addr)
      // and it is unused: no block handed out, from the window or elsewhere, overlaps it,
      // so in particular no page a pte maps
      ensures forall i :: 0 <= i < |issued| ==> Disjoint(issued[i], mb.freed[|old(mb.freed)|])
      ensures forall a :: a in pte ==> Disjoint(Block(pte[a], PAGE_SIZE), mb.freed[|old(mb.freed)|])
      ensures old(issued) <= issued
    {
      var size := SECTION_MAP_BYTES;
      size := Align(size, PMD_SIZE);
      var bufStart := mb.AllocTryNid(size * mapCount, PMD_SIZE, nodeid);

      if bufStart != NULL {
        buf := bufStart;
        bufEnd := bufStart + size * mapCount;
      }

      PopulateSections(mapMap, pnumBegin, pnumEnd, nodeid, present);

      if bufStart != NULL {
        ghost var rest := Block(buf, bufEnd - buf);
        CloseWindow();
        assert mb.freed[|old(mb.freed)|] == rest;
        assert CarvedTo(issued, |old(issued)|, bufStart, rest.addr);
      }
    }

    /** The loop of sparse_mem_maps_populate_node: populate every present section in [pnumBegin, pnumEnd). */
    method PopulateSections(mapMap: array<nat>, pnumBegin: nat, pnumEnd: nat, nodeid: int, present: nat -> bool)
      requires Valid()
      requires pnumEnd <= mapMap.Length
      modifies this`buf, this`issued, this`pte, mb`top, mapMap
      ensures Valid()
      ensures WindowShrinks(old(buf), buf)
      ensures forall pnum :: pnumBegin <= pnum < pnumEnd && present(pnum) ==> mapMap[pnum] == SectionMap(pnum)
      ensures forall pnum :: pnumBegin <= pnum < pnumEnd && present(pnum) ==> SectionBacked(pte, SectionMap(pnum))
      ensures forall i :: 0 <= i < mapMap.Length && !(pnumBegin <= i < pnumEnd && present(i)) ==>
                mapMap[i] == old(mapMap[i])
      // existing ptes are kept; only pages of present sections gain one
      ensures Extends(pte, old(pte))
      ensures forall n :: n in pte && n !in old(pte) ==> InPresentSection(n, pnumBegin, pnumEnd, present)
      ensures old(issued) <= issued
      ensures CarvedTo(issued, |old(issued)|, old(buf), buf)
    {
      var pnum := pnumBegin;
      while pnum < pnumEnd
        invariant Valid()
        invariant WindowShrinks(old(buf), buf)
        invariant pnumBegin <= pnum && (pnum <= pnumEnd || pnum == pnumBegin)
        invariant forall q :: pnumBegin <= q < pnum && q < pnumEnd && present(q) ==> mapMap[q] == SectionMap(q)
        invariant forall i :: 0 <= i < mapMap.Length && !(pnumBegin <= i < pnum && i < pnumEnd && present(i)) ==>
                    mapMap[i] == old(mapMap[i])
        invariant SectionsPopulated(old(pte), pte, pnumBegin, pnum, present)
        invariant old(issued) <= issued
        invariant CarvedTo(issued, |old(issued)|, old(buf), buf)
        decreases pnumEnd - pnum
      {
        if present(pnum) {
          PopulateOne(mapMap, pnum, nodeid, old(pte), pnumBegin, present, |old(issued)|, old(buf));
        } else {
          SectionsSkip(old(pte), pte, pnumBegin, pnum, present);
        }
        pnum := pnum + 1;
      }
    }

    /** One present section of that loop, with what the loop has done so far carried over. */
    method PopulateOne(mapMap: array<nat>, pnum: nat, nodeid: int, ghost before: map<nat, nat>, ghost pnumBegin: nat,
                       ghost present: nat -> bool, ghost from: nat, ghost low: nat)
      requires Valid()
      requires pnum < mapMap.Length && pnumBegin <= pnum && present(pnum)
      requires SectionsPopulated(before, pte, pnumBegin, pnum, present)
      requires from <= |issued| && low <= buf && CarvedTo(issued, from, low, buf)
      modifies this`buf, this`issued, this`pte, mb`top, mapMap
      ensures Valid()
      ensures WindowShrinks(old(buf), buf)
      ensures mapMap[..] == old(mapMap[..])[pnum := SectionMap(pnum)]
      ensures SectionsPopulated(before, pte, pnumBegin, pnum + 1, present)
      ensures old(issued) <= issued
      ensures CarvedTo(issued, from, low, buf)
    {
      RecordSection(mapMap, pnum, nodeid);
      CarvedToTrans(old(issued), issued, from, low, old(buf), buf);
      SectionsStep(before, old(pte), pte, pnumBegin, pnum, present);
    }

    /** One present section of that loop: populate it and record its map in map_map[pnum]. */
    method RecordSection(mapMap: array<nat>, pnum: nat, nodeid: int)
      requires Valid()
      requires pnum < mapMap.Length
      modifies this`buf, this`issued, this`pte, mb`top, mapMap
      ensures Valid()
      ensures WindowShrinks(old(buf), buf)
      ensures mapMap[..] == old(mapMap[..])[pnum := SectionMap(pnum)]
      ensures SectionBacked(pte, SectionMap(pnum))
      ensures Extends(pte, old(pte))
      ensures forall n :: n in pte && n !in old(pte) ==> WalkedPage(n, SectionMap(pnum), SectionMap(pnum) + SECTION_MAP_BYTES)
      ensures old(issued) <= issued
      ensures CarvedTo(issued, |old(issued)|, old(buf), buf)
    {
      var m := SectionPopulate(pnum, nodeid);
      mapMap[pnum] := m;
    }

    /** The teardown of sparse_mem_maps_populate_node: give the unused rest of the window back and close it. */
    method CloseWindow()
      requires Valid() && buf != NULL
      modifies this`buf, this`bufEnd, mb`freed
      ensures Valid()
      ensures buf == NULL && bufEnd == NULL
      ensures mb.freed == old(mb.freed) + [Block(old(buf), old(bufEnd) - old(buf))]
      // what is given back overlaps no block handed out
      ensures forall i :: 0 <= i < |issued| ==> Disjoint(issued[i], Block(old(buf), old(bufEnd) - old(buf)))
      // in particular no page a pte maps
      ensures forall a :: a in pte ==> Disjoint(Block(pte[a], PAGE_SIZE), Block(old(buf), old(bufEnd) - old(buf)))
    {
      forall a | a in pte
        ensures Disjoint(Block(pte[a], PAGE_SIZE), Block(buf, bufEnd - buf))
      {
        PteBlockIssued(pte, issued, a);
      }
      mb.FreeEarly(buf, bufEnd - buf);
      buf := NULL;
      bufEnd := NULL;
    }
  }

  /**
   * After k steps of the walk from page `first`, exactly the pages first ..
   * first + k - 1 have gained a pte, if they had none, and every entry of
   * `before` is kept.
   */
  ghost predicate WalkedSoFar(before: map<nat, nat>, after: map<nat, nat>, first: nat, k: nat)
  {
    && (forall n :: first <= n < first + k ==> n in after)
    && Extends(after, before)
    && (forall n :: n in after && n !in before ==> first <= n < first + k)
  }

  /** One more step backs page first + k and changes no other entry. */
  lemma WalkedStep(before: map<nat, nat>, mid: map<nat, nat>, after: map<nat, nat>, first: nat, k: nat)
    requires WalkedSoFar(before, mid, first, k)
    requires first + k in after && after == mid[first + k := after[first + k]]
    requires first + k in mid ==> after == mid
    ensures WalkedSoFar(before, after, first, k + 1)
  {
  }

  /** The k-th address of the walk from `start` lies in the k-th page after start's. */
  lemma PageOfStep(start: nat, k: nat)
    ensures PageOf(start + k * PAGE_SIZE) == PageOf(start) + k
  {
    var q := PageOf(start);
    assert start + k * PAGE_SIZE == (q + k) * PAGE_SIZE + (start - q * PAGE_SIZE);
    DivUnique(start + k * PAGE_SIZE, PAGE_SIZE, q + k, start - q * PAGE_SIZE);
  }

  /** A walk that took k steps before passing `end` touched exactly the k pages from start's on. */
  lemma WalkedPrefix(start: nat, end: nat, k: nat)
    requires end <= start + k * PAGE_SIZE
    requires k == 0 || start + (k - 1) * PAGE_SIZE < end
    ensures forall n: nat :: WalkedPage(n, start, end) <==> PageOf(start) <= n < PageOf(start) + k
  {
    forall n | PageOf(start) <= n
      ensures WalkedPage(n, start, end) <==> n < PageOf(start) + k
    {
      var j := n - PageOf(start);
      if j < k {
        MulMonotone(j, k - 1, PAGE_SIZE);
      } else {
        MulMonotone(k, j, PAGE_SIZE);
      }
    }
  }

  lemma MulMonotone(x: nat, y: nat, a: Positive)
    requires x <= y
    ensures x * a <= y * a
  {
    assert y * a == x * a + (y - x) * a;
  }

  lemma MulMonotoneInv(x: nat, y: nat, a: Positive)
    requires x * a < y * a
    ensures x < y
  {
    if x >= y {
      MulMonotone(y, x, a);
    }
  }
}
