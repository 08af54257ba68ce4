/** What holds of heap_4 over whole runs of allocations and frees. */
module HeapRuns {
  import opened Machine
  import opened HeapModel

  datatype Op = Alloc(n: int) | Release(p: int)

  function Step(s: State, op: Op): State {
    match op
    case Alloc(n) => Malloc(s, n)
    case Release(p) => Free(s, p)
  }

  function Run(s: State, ops: seq<Op>): State
    decreases |ops|
  {
    if ops == [] then s else Run(Step(s, ops[0]), ops[1..])
  }

  lemma StepKeepsInv(s: State, r: Region, op: Op)
    requires Inv(s, r)
    ensures Inv(Step(s, op), r)
  {
    match op
    case Alloc(n) => MallocKeepsInv(s, r, n);
    case Release(p) => FreeKeepsInv(s, r, p);
  }

  /** After any run: canonical free list, disjoint aligned live blocks, no gap and no overlap. */
  lemma {:induction false} RunKeepsInv(s: State, r: Region, ops: seq<Op>)
    requires Inv(s, r)
    ensures Inv(Run(s, ops), r)
    decreases |ops|
  {
    if ops != [] {
      StepKeepsInv(s, r, ops[0]);
      RunKeepsInv(Step(s, ops[0]), r, ops[1..]);
    }
  }

  // ---- The free list is a function of the live blocks ----

  lemma FreeListDetermined(s: State, t: State, r: Region)
    requires Inv(s, r) && Inv(t, r) && s.live == t.live
    ensures s.free == t.free && s.bytes == t.bytes
  {
    forall a ensures FreeAt(s.free, a) <==> FreeAt(t.free, a) {
      if FreeAt(s.free, a) {
        FreeInRegion(s.free, r, a);
      }
      if FreeAt(t.free, a) {
        FreeInRegion(t.free, r, a);
      }
    }
    CanonicalUnique(s.free, t.free, r);
  }

  lemma FreeInRegion(fs: seq<Block>, r: Region, a: int)
    requires Canonical(fs, r) && FreeAt(fs, a)
    ensures r.lo <= a < r.hi
  {
    var i :| 0 <= i < |fs| && fs[i].Has(a);
    assert BlockIn(fs[i], r);
  }

  /** No leak and no fragmentation left behind: with nothing live, the heap is as it was built. */
  lemma NothingLiveIsInitial(s: State, r: Region)
    requires Inv(s, r) && s.live == map[]
    ensures s.free == InitState(r).free && s.bytes == InitState(r).bytes
  {
    InitInv(r);
    FreeListDetermined(s, InitState(r), r);
  }

  function Releases(ps: seq<int>): seq<Op> {
    seq(|ps|, i requires 0 <= i < |ps| => Release(ps[i]))
  }

  function Headers(ps: seq<int>): set<int> {
    if ps == [] then {} else {ps[0] - HEADER} + Headers(ps[1..])
  }

  lemma {:induction false} HeadersHas(ps: seq<int>, i: nat)
    requires i < |ps|
    ensures ps[i] - HEADER in Headers(ps)
    decreases i
  {
    if i > 0 {
      HeadersHas(ps[1..], i - 1);
    }
  }

  lemma {:induction false} ReleasesLive(s: State, ps: seq<int>)
    requires 0 !in ps
    ensures Run(s, Releases(ps)).live == s.live - Headers(ps)
    decreases |ps|
  {
    if ps != [] {
      assert Releases(ps)[1..] == Releases(ps[1..]);
      ReleasesLive(Free(s, ps[0]), ps[1..]);
      assert Free(s, ps[0]).live == s.live - {ps[0] - HEADER};
    }
  }

  /** Whatever the order, freeing every live block leads back to the single initial block. */
  lemma FreeAllRestores(s: State, r: Region, ps: seq<int>)
    requires Inv(s, r)
    requires 0 !in ps && forall h :: h in s.live ==> h + HEADER in ps
    ensures Run(s, Releases(ps)).free == [Block(r.lo, r.hi - r.lo)]
    ensures Run(s, Releases(ps)).bytes == r.hi - r.lo
  {
    hide Inv, Run, Releases, Headers;
    ReleasesLive(s, ps);
    var t := Run(s, Releases(ps));
    forall h | h in s.live ensures h !in t.live {
      var i :| 0 <= i < |ps| && ps[i] == h + HEADER;
      HeadersHas(ps, i);
    }
    assert t.live == map[];
    RunKeepsInv(s, r, Releases(ps));
    NothingLiveIsInitial(t, r);
  }

  // ---- One allocation ----

  /** malloc fails for exactly three reasons, and the check against the byte count adds none. */
  lemma MallocNullIff(s: State, r: Region, n: int)
    requires Inv(s, r) && 0 <= n < WORD_LIMIT
    ensures MallocPtr(s, n) == 0 <==>
            n == 0 || TOP_BIT <= n || forall i :: 0 <= i < |s.free| ==> s.free[i].size < Rounded(n)
    ensures MallocPtr(s, n) != 0 <==> Served(s, n)
    ensures MallocPtr(s, n) == 0 ==> Malloc(s, n) == s
  {
    SumBounds(s.free, r, r.lo);
    if Served(s, n) {
      assert BlockIn(s.free[FirstFit(s.free, Rounded(n))], r);
    }
  }

  /** What a successful malloc promises: the lowest-addressed block that fits, an aligned
      pointer, and a block that is large enough but no larger than an unsplittable rest allows. */
  lemma MallocGives(s: State, r: Region, n: int, h: int, size: int)
    requires Inv(s, r) && MallocPtr(s, n) == h + HEADER && h != -HEADER
    requires h in Malloc(s, n).live && size == Malloc(s, n).live[h]
    ensures Served(s, n)
    ensures h % 8 == 0 && n + HEADER <= size <= Rounded(n) + MINIMUM_BLOCK_SIZE
    ensures Malloc(s, n).live == s.live[h := size] && Malloc(s, n).bytes == s.bytes - size
    ensures forall i :: 0 <= i < |s.free| && Rounded(n) <= s.free[i].size ==> h <= s.free[i].addr
  {
    var want := Rounded(n);
    var k := FirstFit(s.free, want);
    RoundedFacts(n);
    assert BlockIn(s.free[k], r) && Aligned(s.free[k]);
    assert forall i :: k < i < |s.free| ==> s.free[k].End() < s.free[i].addr;
  }

  /** Which block is handed out and how much of it. The request with its eight-byte header is rounded up
      to a multiple of eight; the first free block that fits is split if more than 16 bytes are left
      over, and then the rest stays free; otherwise all of it is handed out. */
  lemma MallocExact(s: State, r: Region, n: int, k: nat)
    requires Inv(s, r) && 0 < n < TOP_BIT && k < |s.free|
    requires var want := (n + 15) / 8 * 8;
             want <= s.free[k].size && forall i :: 0 <= i < k ==> s.free[i].size < want
    ensures var want, h, f, t := (n + 15) / 8 * 8, s.free[k].addr, s.free[k].size, Malloc(s, n);
            var size := if f - want > 16 then want else f;
            && MallocPtr(s, n) == h + 8 && t.live == s.live[h := size] && t.bytes == s.bytes - size
            && (f - want > 16 ==> forall a :: h + want <= a < h + f ==> FreeAt(t.free, a))
            && (f - want <= 16 ==> forall a :: h <= a < h + f ==> !FreeAt(t.free, a))
  {
    hide Inv, FreeAt, Canonical, FreeAfterTaking, FirstFit, Rounded;
    ExactServed(s, r, n, k);
    ExactBytes(s.free, r, k, Rounded(n));
  }

  lemma ExactServed(s: State, r: Region, n: int, k: nat)
    requires Inv(s, r) && 0 < n < TOP_BIT && k < |s.free|
    requires var want := (n + 15) / 8 * 8;
             want <= s.free[k].size && forall i :: 0 <= i < k ==> s.free[i].size < want
    ensures Rounded(n) == (n + 15) / 8 * 8 && 0 < Rounded(n) && FirstFit(s.free, Rounded(n)) == k && Served(s, n)
    ensures Canonical(s.free, r)
  {
    RoundedIs(n);
    FirstFitIs(s.free, Rounded(n), k);
    SumBounds(s.free, r, r.lo);
  }

  lemma ExactBytes(fs: seq<Block>, r: Region, k: nat, want: int)
    requires Canonical(fs, r) && k < |fs| && 0 < want <= fs[k].size
    ensures var h, f, rest := fs[k].addr, fs[k].size, FreeAfterTaking(fs, k, want);
            && (f - want > 16 ==> forall a :: h + want <= a < h + f ==> FreeAt(rest, a))
            && (f - want <= 16 ==> forall a :: h <= a < h + f ==> !FreeAt(rest, a))
  {
    hide Canonical, FreeAfterTaking;
    TakingBytes(fs, r, k, want);
    assert forall a :: fs[k].addr <= a < fs[k].End() ==> fs[k].Has(a);
  }

  lemma RoundedIs(n: int)
    requires 0 < n
    ensures Rounded(n) == (n + 15) / 8 * 8
  {
  }

  /** The block is the caller's alone: it was free, is free no longer, and meets no other live block. */
  lemma MallocPrivate(s: State, r: Region, n: int, h: int, size: int)
    requires Inv(s, r) && MallocPtr(s, n) == h + HEADER && h != -HEADER
    requires h in Malloc(s, n).live && size == Malloc(s, n).live[h]
    ensures h !in s.live && forall p :: p in s.live ==> p + s.live[p] <= h || h + size <= p
    ensures forall a :: h <= a < h + size ==> FreeAt(s.free, a) && !FreeAt(Malloc(s, n).free, a)
  {
    MallocGives(s, r, n, h, size);
    var want := Rounded(n);
    var k := FirstFit(s.free, want);
    RoundedFacts(n);
    TakenApart(s, r, k, Taken(s.free[k], want));
    TakingBytes(s.free, r, k, want);
    assert forall a :: h <= a < h + size ==> s.free[k].Has(a);
  }

  lemma MallocThenFreeLive(s: State, r: Region, n: int)
    requires Inv(s, r) && MallocPtr(s, n) != 0
    ensures Free(Malloc(s, n), MallocPtr(s, n)).live == s.live
  {
    var h, m := MallocPtr(s, n) - HEADER, Malloc(s, n);
    MallocPrivate(s, r, n, h, m.live[h]);
    assert m.live - {h} == s.live;
  }

  /** Freeing what was just allocated gives back the same list, split or not, merged or not. */
  lemma MallocThenFreeRestores(s: State, r: Region, n: int)
    requires Inv(s, r) && MallocPtr(s, n) != 0
    ensures var t := Free(Malloc(s, n), MallocPtr(s, n));
            t.free == s.free && t.live == s.live && t.bytes == s.bytes
  {
    MallocThenFreeLive(s, r, n);
    MallocKeepsInv(s, r, n);
    var m, p := Malloc(s, n), MallocPtr(s, n);
    FreeKeepsInv(m, r, p);
    FreeListDetermined(s, Free(m, p), r);
  }

  // ---- The low-water mark ----

  /** The least number of free bytes over all states of a run. */
  function LeastBytes(s: State, ops: seq<Op>): int
    decreases |ops|
  {
    if ops == [] then s.bytes else Min(s.bytes, LeastBytes(Step(s, ops[0]), ops[1..]))
  }

  lemma {:induction false} MinEverIsLeast(s: State, r: Region, ops: seq<Op>)
    requires Inv(s, r)
    ensures Run(s, ops).minEver == Min(s.minEver, LeastBytes(s, ops))
    decreases |ops|
  {
    if ops != [] {
      StepKeepsInv(s, r, ops[0]);
      MinEverIsLeast(Step(s, ops[0]), r, ops[1..]);
      StepMin(s, r, ops[0]);
    }
  }

  lemma StepMin(s: State, r: Region, op: Op)
    requires Inv(s, r)
    ensures Step(s, op).minEver == Min(s.minEver, Step(s, op).bytes)
  {
    match op {
      case Alloc(n) =>
      case Release(p) =>
        if p - HEADER in s.live {
          assert BlockIn(Block(p - HEADER, s.live[p - HEADER]), r);
        }
    }
  }

  lemma MinEverFromInit(r: Region, ops: seq<Op>)
    requires r.Valid()
    ensures Run(InitState(r), ops).minEver == LeastBytes(InitState(r), ops)
  {
    InitInv(r);
    MinEverIsLeast(InitState(r), r, ops);
  }

  // ---- Double frees ----

  /** Does this run hand out the byte at `a`? */
  ghost predicate HandsOut(s: State, ops: seq<Op>, a: int)
    decreases |ops|
  {
    ops != [] && (Takes(s, ops[0], a) || HandsOut(Step(s, ops[0]), ops[1..], a))
  }

  ghost predicate Takes(s: State, op: Op, a: int) {
    op.Alloc? && Served(s, op.n) &&
    Taken(s.free[FirstFit(s.free, Rounded(op.n))], Rounded(op.n)).Has(a)
  }

  lemma {:induction false} StaleLasts(s: State, r: Region, ops: seq<Op>, h: int)
    requires Inv(s, r) && h in s.stale && !HandsOut(s, ops, h)
    ensures h in Run(s, ops).stale
    decreases |ops|
  {
    if ops != [] {
      StepKeepsInv(s, r, ops[0]);
      StaleLasts(Step(s, ops[0]), r, ops[1..], h);
    }
  }

  /** A second free of `p` changes nothing for as long as no allocation has covered the old
      header, whatever else was freed and merged around it in between. */
  lemma SecondFreeIsIdle(s: State, r: Region, p: int, ops: seq<Op>)
    requires Inv(s, r) && p != 0 && p - HEADER in s.live
    requires !HandsOut(Free(s, p), ops, p - HEADER)
    ensures var t := Run(Free(s, p), ops);
            p - HEADER in t.stale && p - HEADER !in t.live && Free(t, p) == t
  {
    FreeKeepsInv(s, r, p);
    StaleLasts(Free(s, p), r, ops, p - HEADER);
    RunKeepsInv(Free(s, p), r, ops);
    StaleNotLive(Run(Free(s, p), ops), r, p - HEADER);
  }

  lemma StaleNotLive(s: State, r: Region, h: int)
    requires Inv(s, r) && h in s.stale
    ensures h !in s.live
  {
    FreeInRegion(s.free, r, h);
    assert !LiveAt(s.live, h);
    assert h in s.live ==> BlockIn(Block(h, s.live[h]), r);
  }

  /** A free is idle if and only if the header is not that of a live block, whoever owns it now. */
  lemma FreeIdleIff(s: State, r: Region, p: int)
    requires Inv(s, r) && (p - HEADER in s.live || p - HEADER in s.stale)
    ensures Free(s, p) == s <==> p - HEADER !in s.live
    ensures p - HEADER !in s.live <==> p - HEADER in s.stale
  {
    if p - HEADER in s.live {
      assert BlockIn(Block(p - HEADER, s.live[p - HEADER]), r);
      assert Free(s, p).bytes != s.bytes;
    }
    if p - HEADER in s.stale {
      StaleNotLive(s, r, p - HEADER);
    }
  }

  lemma MallocLive(s: State, n: int)
    requires MallocPtr(s, n) != 0
    ensures MallocPtr(s, n) - HEADER in Malloc(s, n).live
  {
  }

  lemma FreedStale(s: State, p: int)
    requires p != 0 && p - HEADER in s.live
    ensures p - HEADER in Free(s, p).stale && p - HEADER !in Free(s, p).live
  {
  }

  lemma SamePointer(s: State, t: State, n: int)
    requires s.free == t.free && s.bytes == t.bytes
    ensures MallocPtr(s, n) == MallocPtr(t, n)
  {
  }

  /** Once the same request has been served again the guard no longer helps: the second free of the
      old pointer releases the block of its new owner. */
  lemma ReusedBlockIsReleased(s: State, r: Region, n: int)
    requires Inv(s, r) && MallocPtr(s, n) != 0
    ensures var p, t := MallocPtr(s, n), Free(Malloc(s, n), MallocPtr(s, n));
            var u := Malloc(t, n);
            && p - HEADER in t.stale && Free(t, p) == t
            && MallocPtr(t, n) == p && p - HEADER in u.live
            && p - HEADER !in Free(u, p).live && Free(u, p).free == t.free
  {
    hide Inv, Malloc, MallocPtr, Free;
    var m, p := Malloc(s, n), MallocPtr(s, n);
    var t := Free(m, p);
    MallocKeepsInv(s, r, n);
    FreeKeepsInv(m, r, p);
    MallocLive(s, n);
    FreedStale(m, p);
    FreeIdleIff(t, r, p);
    MallocThenFreeRestores(s, r, n);
    SamePointer(s, t, n);
    MallocLive(t, n);
    FreedStale(Malloc(t, n), p);
    MallocThenFreeRestores(t, r, n);
  }

  // ---- Conservation ----

  /** The sizes of the live blocks that start in `lo..hi`. */
  function LiveBytes(live: map<int, int>, lo: int, hi: int): int
    decreases hi - lo
  {
    if hi <= lo then 0 else (if lo in live then live[lo] else 0) + LiveBytes(live, lo + 1, hi)
  }

  lemma {:induction false} LiveBytesWithout(live: map<int, int>, lo: int, hi: int, h: int)
    requires h in live && h < hi
    ensures LiveBytes(live, lo, hi) == (if lo <= h then live[h] else 0) + LiveBytes(live - {h}, lo, hi)
    decreases hi - lo
  {
    if lo < hi {
      LiveBytesWithout(live, lo + 1, hi, h);
    }
  }

  lemma MallocConserves(s: State, r: Region, n: int)
    requires Inv(s, r) && Served(s, n)
    ensures Malloc(s, n).bytes + LiveBytes(Malloc(s, n).live, r.lo, r.hi) == s.bytes + LiveBytes(s.live, r.lo, r.hi)
  {
    var h, t := MallocPtr(s, n) - HEADER, Malloc(s, n);
    assert BlockIn(s.free[FirstFit(s.free, Rounded(n))], r);
    MallocThenFreeLive(s, r, n);
    MallocGives(s, r, n, h, t.live[h]);
    LiveBytesWithout(t.live, r.lo, r.hi, h);
  }

  lemma StepConserves(s: State, r: Region, op: Op)
    requires Inv(s, r)
    ensures Step(s, op).bytes + LiveBytes(Step(s, op).live, r.lo, r.hi) == s.bytes + LiveBytes(s.live, r.lo, r.hi)
  {
    match op {
      case Alloc(n) =>
        if Served(s, n) {
          MallocConserves(s, r, n);
        }
      case Release(p) =>
        if p != 0 && p - HEADER in s.live {
          assert BlockIn(Block(p - HEADER, s.live[p - HEADER]), r);
          LiveBytesWithout(s.live, r.lo, r.hi, p - HEADER);
        }
    }
  }

  /** No byte is lost: free bytes and live bytes always add up to the whole region. */
  lemma {:induction false} FreePlusLiveConstant(s: State, r: Region, ops: seq<Op>)
    requires Inv(s, r) && s.bytes + LiveBytes(s.live, r.lo, r.hi) == r.hi - r.lo
    ensures Run(s, ops).bytes + LiveBytes(Run(s, ops).live, r.lo, r.hi) == r.hi - r.lo
    decreases |ops|
  {
    if ops != [] {
      StepKeepsInv(s, r, ops[0]);
      StepConserves(s, r, ops[0]);
      FreePlusLiveConstant(Step(s, ops[0]), r, ops[1..]);
    }
  }

  lemma {:induction false} NoLiveBytes(lo: int, hi: int)
    ensures LiveBytes(map[], lo, hi) == 0
    decreases hi - lo
  {
    if lo < hi {
      NoLiveBytes(lo + 1, hi);
    }
  }

  lemma RegionConserved(r: Region, ops: seq<Op>)
    requires r.Valid()
    ensures var t := Run(InitState(r), ops);
            Sum(t.free) + LiveBytes(t.live, r.lo, r.hi) == r.hi - r.lo
  {
    InitInv(r);
    NoLiveBytes(r.lo, r.hi);
    FreePlusLiveConstant(InitState(r), r, ops);
    RunKeepsInv(InitState(r), r, ops);
  }
}
