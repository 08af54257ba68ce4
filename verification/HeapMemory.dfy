/** How heap_4 lays its list and its headers out in memory.

    Memory is one 32-bit word for each byte address; heap_4 only ever touches the words at
    `p` (`pxNextFreeBlock`) and `p + 4` (`xBlockSize`) of a block header at `p`.
  */
module HeapMemory {
  import opened Machine
  import opened HeapModel

  /** The chain from `xStart` to `pxEnd`, both of which carry size 0. */
  ghost function Nodes(xs: int, fs: seq<Block>, hi: int): seq<Block> {
    [Block(xs, 0)] + fs + [Block(hi, 0)]
  }

  ghost predicate Chain(m: seq<Word>, ns: seq<Block>) {
    && ns != []
    && (forall i :: 0 <= i < |ns| ==> 0 <= ns[i].addr && ns[i].addr + HEADER <= |m|)
    && (forall i :: 0 <= i < |ns| ==> m[ns[i].addr + 4] == ns[i].size)
    && (forall i, j :: 0 <= i && j == i + 1 && j < |ns| ==> m[ns[i].addr] == ns[j].addr)
    && m[ns[|ns| - 1].addr] == 0
  }

  /** The headers at `a` and `b` share no word. */
  predicate Clear(a: int, b: int) {
    a + HEADER <= b || b + HEADER <= a
  }

  ghost predicate Apart(ns: seq<Block>) {
    forall i, j :: 0 <= i < j < |ns| ==> Clear(ns[i].addr, ns[j].addr)
  }

  /** The sentinel `xStart` is a variable of its own, outside the heap. */
  predicate Outside(xs: int, r: Region) {
    0 < xs && (xs + HEADER <= r.lo || r.hi + HEADER <= xs)
  }

  /** Every block has room for a header. */
  ghost predicate Roomy(fs: seq<Block>) {
    forall i :: 0 <= i < |fs| ==> HEADER <= fs[i].size
  }

  lemma AlignedIsRoomy(fs: seq<Block>, r: Region)
    requires Canonical(fs, r) && AllAligned(fs)
    ensures Roomy(fs)
  {
    forall i | 0 <= i < |fs| ensures HEADER <= fs[i].size {
      assert BlockIn(fs[i], r) && Aligned(fs[i]);
    }
  }

  lemma NodesApart(xs: int, fs: seq<Block>, r: Region)
    requires r.Valid() && Canonical(fs, r) && Roomy(fs) && Outside(xs, r)
    ensures Apart(Nodes(xs, fs, r.hi))
  {
    var ns := Nodes(xs, fs, r.hi);
    forall i, j | 0 <= i < j < |ns| ensures Clear(ns[i].addr, ns[j].addr) {
      if j <= |fs| {
        assert ns[j] == fs[j - 1] && BlockIn(fs[j - 1], r);
      }
      if 1 <= i {
        assert ns[i] == fs[i - 1] && BlockIn(fs[i - 1], r);
        assert j <= |fs| ==> fs[i - 1].End() < fs[j - 1].addr;
      }
    }
  }

  /** Memory differs from `m` only in the header of `j` and in the link that leads to it. */
  ghost predicate Linked(m: seq<Word>, m': seq<Word>, prev: int, j: Block, next: int) {
    && |m'| == |m|
    && 0 <= prev < |m| && 0 <= j.addr && j.addr + HEADER <= |m|
    && m'[prev] == j.addr
    && m'[j.addr] == next
    && m'[j.addr + 4] == j.size
    && (forall a :: 0 <= a < |m| && a != prev && a != j.addr && a != j.addr + 4 ==> m'[a] == m[a])
  }

  lemma SpliceLinks(m: seq<Word>, m': seq<Word>, ns: seq<Block>, l: nat, h: nat, j: Block, gs: seq<Block>)
    requires Chain(m, ns) && 1 <= l <= h < |ns| && |gs| == |ns| + 1 + l - h && gs[l] == j
    requires forall i :: 0 <= i < l ==> gs[i] == ns[i]
    requires forall i :: l < i < |gs| ==> gs[i] == ns[h + i - l - 1]
    requires Linked(m, m', ns[l - 1].addr, j, ns[h].addr)
    requires forall i :: 0 <= i < |ns| && (i < l - 1 || h <= i) ==> m'[ns[i].addr] == m[ns[i].addr]
    ensures forall i, i' :: 0 <= i && i' == i + 1 && i' < |gs| ==> m'[gs[i].addr] == gs[i'].addr
  {
    forall i, i' | 0 <= i && i' == i + 1 && i' < |gs| ensures m'[gs[i].addr] == gs[i'].addr {
      if i < l - 1 {
        assert m[ns[i].addr] == ns[i + 1].addr;
      } else if i > l {
        var i0 := h + i - l - 1;
        assert gs[i] == ns[i0] && gs[i'] == ns[i0 + 1];
        assert m[ns[i0].addr] == ns[i0 + 1].addr;
      }
    }
  }

  /** Those writes replace the nodes `l..h` of the chain by `j`. */
  lemma ChainSplice(m: seq<Word>, m': seq<Word>, ns: seq<Block>, l: nat, h: nat, j: Block)
    requires Chain(m, ns) && Apart(ns) && 1 <= l <= h < |ns|
    requires Linked(m, m', ns[l - 1].addr, j, ns[h].addr)
    requires forall i :: 0 <= i < |ns| && (i < l || h <= i) ==> Clear(ns[i].addr, j.addr)
    ensures Chain(m', Splice(ns, l, h, j))
  {
    SpliceIndex(ns, l, h, j);
    SplicedChain(m, m', ns, l, h, j, Splice(ns, l, h, j));
  }

  lemma SplicedChain(m: seq<Word>, m': seq<Word>, ns: seq<Block>, l: nat, h: nat, j: Block, gs: seq<Block>)
    requires Chain(m, ns) && Apart(ns) && 1 <= l <= h < |ns| && |gs| == |ns| + 1 + l - h && gs[l] == j
    requires forall i :: 0 <= i < l ==> gs[i] == ns[i]
    requires forall i :: l < i < |gs| ==> gs[i] == ns[h + i - l - 1]
    requires Linked(m, m', ns[l - 1].addr, j, ns[h].addr)
    requires forall i :: 0 <= i < |ns| && (i < l || h <= i) ==> Clear(ns[i].addr, j.addr)
    ensures Chain(m', gs)
  {
    forall i | 0 <= i < |ns| && (i < l || h <= i)
      ensures m'[ns[i].addr + 4] == ns[i].size && (i != l - 1 ==> m'[ns[i].addr] == m[ns[i].addr])
    {
      assert i == l - 1 || Clear(ns[i].addr, ns[l - 1].addr);
    }
    forall i | 0 <= i < |gs|
      ensures 0 <= gs[i].addr && gs[i].addr + HEADER <= |m'| && m'[gs[i].addr + 4] == gs[i].size
    {
      assert gs[i] == if i < l then ns[i] else if i == l then j else ns[h + i - l - 1];
    }
    SpliceLinks(m, m', ns, l, h, j, gs);
  }

  /** Unlinking one node. */
  lemma ChainWithout(m: seq<Word>, m': seq<Word>, ns: seq<Block>, k: nat)
    requires Chain(m, ns) && Apart(ns) && 1 <= k < |ns| - 1 && |m'| == |m|
    requires m'[ns[k - 1].addr] == ns[k + 1].addr
    requires forall a :: 0 <= a < |m| && a != ns[k - 1].addr ==> m'[a] == m[a]
    ensures Chain(m', Without(ns, k))
  {
    hide Chain, Apart;
    WithoutIndex(ns, k);
    UnlinkedChain(m, m', ns, k, Without(ns, k));
  }

  lemma UnlinkedChain(m: seq<Word>, m': seq<Word>, ns: seq<Block>, k: nat, gs: seq<Block>)
    requires Chain(m, ns) && Apart(ns) && 1 <= k < |ns| - 1 && |m'| == |m|
    requires m'[ns[k - 1].addr] == ns[k + 1].addr
    requires forall a :: 0 <= a < |m| && a != ns[k - 1].addr ==> m'[a] == m[a]
    requires |gs| == |ns| - 1
    requires forall i :: 0 <= i < k ==> gs[i] == ns[i]
    requires forall i :: k <= i < |gs| ==> gs[i] == ns[i + 1]
    ensures Chain(m', gs)
  {
    forall i | 0 <= i < |ns|
      ensures m'[ns[i].addr + 4] == ns[i].size && (i != k - 1 ==> m'[ns[i].addr] == m[ns[i].addr])
    {
      assert i == k - 1 || Clear(ns[i].addr, ns[k - 1].addr);
    }
    forall i | 0 <= i < |gs|
      ensures 0 <= gs[i].addr && gs[i].addr + HEADER <= |m'| && m'[gs[i].addr + 4] == gs[i].size
    {
      var i0 := if i < k then i else i + 1;
      assert gs[i] == ns[i0];
    }
    forall i, j | 0 <= i && j == i + 1 && j < |gs| ensures m'[gs[i].addr] == gs[j].addr {
      if i < k - 1 {
        assert m[ns[i].addr] == ns[j].addr;
      } else if i >= k {
        assert m[ns[i + 1].addr] == ns[j + 1].addr;
      }
    }
  }

  /** A chain does not depend on words outside its headers. */
  lemma ChainFrame(m: seq<Word>, m': seq<Word>, ns: seq<Block>)
    requires Chain(m, ns) && |m'| == |m|
    requires forall i :: 0 <= i < |ns| ==> m'[ns[i].addr] == m[ns[i].addr] && m'[ns[i].addr + 4] == m[ns[i].addr + 4]
    ensures Chain(m', ns)
  {
    forall i, j | 0 <= i && j == i + 1 && j < |ns| ensures m'[ns[i].addr] == ns[j].addr {
      assert m[ns[i].addr] == ns[j].addr;
    }
  }

  // ---- Headers of blocks in use, and of freed ones ----

  /** A live block has the top bit set and no successor. */
  ghost predicate LiveHeaders(m: seq<Word>, live: map<int, int>) {
    forall p :: p in live ==> 0 <= p && p + HEADER <= |m| && m[p] == 0 && m[p + 4] == live[p] + TOP_BIT
  }

  /** The word where a stale header keeps its size still has a clear top bit. */
  ghost predicate StaleHeaders(m: seq<Word>, stale: set<int>) {
    forall a :: a in stale ==> 0 <= a && a + HEADER <= |m| && m[a + 4] < TOP_BIT
  }

  ghost predicate Represents(m: seq<Word>, xs: int, r: Region, s: State) {
    && Outside(xs, r)
    && Chain(m, Nodes(xs, s.free, r.hi))
    && LiveHeaders(m, s.live)
    && StaleHeaders(m, s.stale)
  }

  /** The three headers that `prvHeapInit` writes. */
  lemma InitRepresents(m: seq<Word>, xs: int, r: Region)
    requires r.Valid() && Outside(xs, r) && xs + HEADER <= |m| && r.hi + HEADER <= |m|
    requires m[xs] == r.lo && m[xs + 4] == 0
    requires m[r.lo] == r.hi && m[r.lo + 4] == r.hi - r.lo
    requires m[r.hi] == 0 && m[r.hi + 4] == 0
    ensures Represents(m, xs, r, InitState(r))
  {
    var ns := Nodes(xs, InitState(r).free, r.hi);
    assert ns == [Block(xs, 0), Block(r.lo, r.hi - r.lo), Block(r.hi, 0)];
  }

  // ---- What an insertion writes ----

  /** Outside the free blocks only the sentinel's link may change. */
  ghost predicate Untouched(m: seq<Word>, m': seq<Word>, fs: seq<Block>, xs: int) {
    && |m'| == |m|
    && forall a :: 0 <= a < |m| && a != xs && !FreeAt(fs, a) ==> m'[a] == m[a]
  }

  /** No size word inside the heap gains its top bit. */
  ghost predicate StaysClear(m: seq<Word>, m': seq<Word>, r: Region) {
    && |m'| == |m|
    && forall a :: 0 <= a < |m| && r.lo <= a < r.hi && a % 8 == 4 && m[a] < TOP_BIT ==> m'[a] < TOP_BIT
  }

  lemma LiveUntouched(m: seq<Word>, m': seq<Word>, r: Region, xs: int, fs: seq<Block>, live: map<int, int>)
    requires LiveHeaders(m, live) && LiveOk(live, r) && Outside(xs, r) && Untouched(m, m', fs, xs)
    requires forall a :: LiveAt(live, a) ==> !FreeAt(fs, a)
    ensures LiveHeaders(m', live)
  {
    forall p | p in live ensures m'[p] == m[p] && m'[p + 4] == m[p + 4] {
      assert BlockIn(Block(p, live[p]), r);
      assert p <= p < p + live[p] && p <= p + 4 < p + live[p];
      assert LiveAt(live, p) && LiveAt(live, p + 4);
    }
  }

  lemma StaleInside(r: Region, fs: seq<Block>, a: int)
    requires r.Valid() && Canonical(fs, r) && a % 8 == 0 && FreeAt(fs, a)
    ensures (a + 4) % 8 == 4 && r.lo <= a + 4 < r.hi
  {
    var i :| 0 <= i < |fs| && fs[i].Has(a);
    assert BlockIn(fs[i], r);
  }

  lemma StaleStayClear(m: seq<Word>, m': seq<Word>, r: Region, fs: seq<Block>, stale: set<int>)
    requires r.Valid() && StaleHeaders(m, stale) && StaleOk(stale, fs) && StaysClear(m, m', r)
    requires Canonical(fs, r)
    ensures StaleHeaders(m', stale)
  {
    forall a | a in stale ensures m'[a + 4] < TOP_BIT {
      StaleInside(r, fs, a);
    }
  }

  lemma PositionIs(fs: seq<Block>, a: int, k: nat)
    requires k <= |fs|
    requires forall i :: 0 <= i < k ==> fs[i].addr < a
    requires k < |fs| ==> a <= fs[k].addr
    requires forall i, j :: 0 <= i < j < |fs| ==> fs[i].addr < fs[j].addr
    ensures k == Position(fs, a)
  {
  }

  /** The writes an insertion makes: the merged block's header, and the link to it. */
  ghost predicate InsertWrites(m: seq<Word>, m': seq<Word>, xs: int, fs: seq<Block>, hi: int, b: Block) {
    var ns, k := Nodes(xs, fs, hi), Position(fs, b.addr);
    Linked(m, m', ns[First(fs, k, b)].addr, Joined(fs, k, b), ns[Last(fs, k, b) + 1].addr)
  }

  ghost predicate Insertable(xs: int, fs: seq<Block>, r: Region, b: Block) {
    && r.Valid() && Outside(xs, r)
    && Canonical(fs, r) && Roomy(fs)
    && BlockIn(b, r) && HEADER <= b.size && Fits(fs, b)
  }

  lemma InsertRoomy(xs: int, fs: seq<Block>, r: Region, b: Block)
    requires Insertable(xs, fs, r, b)
    ensures Canonical(Insert(fs, b), r) && Roomy(Insert(fs, b))
  {
    InsertCanonical(fs, b, r);
    var k := Position(fs, b.addr);
    SpliceIndex(fs, First(fs, k, b), Last(fs, k, b), Joined(fs, k, b));
  }

  /** The words around the place of insertion. */
  ghost predicate PlaceLinks(m: seq<Word>, ns: seq<Block>, fs: seq<Block>, k: nat) {
    && k <= |fs| && |ns| == |fs| + 2
    && (forall i :: 0 <= i < |ns| ==> 0 <= ns[i].addr && ns[i].addr + HEADER <= |m|)
    && m[ns[k].addr] == ns[k + 1].addr
    && m[ns[k].addr + 4] == ns[k].size && m[ns[k + 1].addr + 4] == ns[k + 1].size
    && (k < |fs| ==> m[ns[k + 1].addr] == ns[k + 2].addr)
    && (0 < k ==> m[ns[k - 1].addr] == ns[k].addr)
  }

  /** What the tests of the insertion compare, and that the headers involved are apart. */
  ghost predicate PlaceFacts(ns: seq<Block>, fs: seq<Block>, hi: int, k: nat, b: Block) {
    && k <= |fs| && |ns| == |fs| + 2
    && (k > 0 ==> ns[k] == fs[k - 1]) && (k < |fs| ==> ns[k + 1] == fs[k])
    && (k == |fs| <==> ns[k + 1].addr == hi)
    && (0 < k ==> Clear(ns[k - 1].addr, ns[k].addr))
    && (k == 0 ==> ns[k].End() != b.addr)
    && Clear(ns[k].addr, b.addr) && Clear(ns[k].addr, ns[k + 1].addr)
    && b.End() <= ns[k + 1].addr && ns[k].size + b.size + ns[k + 1].size < WORD_LIMIT
  }

  lemma InsertFacts(m: seq<Word>, xs: int, fs: seq<Block>, r: Region, b: Block)
    requires Insertable(xs, fs, r, b) && Chain(m, Nodes(xs, fs, r.hi))
    ensures PlaceLinks(m, Nodes(xs, fs, r.hi), fs, Position(fs, b.addr))
    ensures PlaceFacts(Nodes(xs, fs, r.hi), fs, r.hi, Position(fs, b.addr), b)
  {
    ChainLinks(m, Nodes(xs, fs, r.hi), fs, Position(fs, b.addr));
    PlaceApart(xs, fs, r, b);
  }

  lemma ChainLinks(m: seq<Word>, ns: seq<Block>, fs: seq<Block>, k: nat)
    requires Chain(m, ns) && |ns| == |fs| + 2 && k <= |fs|
    ensures PlaceLinks(m, ns, fs, k)
  {
    assert 0 < k ==> m[ns[k - 1].addr] == ns[k].addr;
  }

  lemma PlaceApart(xs: int, fs: seq<Block>, r: Region, b: Block)
    requires Insertable(xs, fs, r, b)
    ensures PlaceFacts(Nodes(xs, fs, r.hi), fs, r.hi, Position(fs, b.addr), b)
  {
    var ns, k := Nodes(xs, fs, r.hi), Position(fs, b.addr);
    PositionSplits(fs, b, r);
    NodesApart(xs, fs, r);
    if k > 0 {
      assert ns[k] == fs[k - 1] && BlockIn(fs[k - 1], r);
    }
    if k < |fs| {
      assert ns[k + 1] == fs[k] && BlockIn(fs[k], r);
    }
  }

  /** The memory after linking the block at `p` in behind the header at `it`, in words alone. */
  ghost predicate Merged(m: seq<Word>, m': seq<Word>, it: int, p: int, end: int) {
    && 0 <= it && it + HEADER <= |m| && 0 <= p && p + HEADER <= |m| && m[it] + HEADER <= |m| && |m'| == |m|
    && var left := it + m[it + 4] == p;
       var right := p + m[p + 4] == m[it] && m[it] != end;
       var start, before, after: int :=
         if left then it else p, if left then m[it + 4] else 0, if right then m[m[it] + 4] else 0;
    && m'[start + 4] == before + m[p + 4] + after
    && m'[start] == (if right then m[m[it]] else m[it])
    && (!left ==> m'[it] == p)
    && forall a :: 0 <= a < |m| && a != it && a != start && a != start + 4 ==> m'[a] == m[a]
  }

  lemma MergedLinked(m: seq<Word>, m': seq<Word>, hi: int, prev: int, it: Block, b: Block, next: Block, after: int)
    requires Merged(m, m', it.addr, b.addr, hi)
    requires m[it.addr + 4] == it.size && m[b.addr + 4] == b.size && m[it.addr] == next.addr
    requires 0 <= next.addr && next.addr + HEADER <= |m| && m[next.addr + 4] == next.size
    requires next.addr != hi ==> m[next.addr] == after
    requires 0 <= prev < |m| && m[prev] == it.addr && Clear(prev, it.addr) && Clear(it.addr, b.addr)
    ensures var left, right := it.End() == b.addr, b.End() == next.addr && next.addr != hi;
            Linked(m, m', if left then prev else it.addr,
                   Block(if left then it.addr else b.addr,
                         (if left then it.size else 0) + b.size + (if right then next.size else 0)),
                   if right then after else next.addr)
  {
  }

  lemma MergedFirst(m: seq<Word>, m': seq<Word>, hi: int, it: Block, b: Block, next: Block, after: int)
    requires Merged(m, m', it.addr, b.addr, hi) && it.End() != b.addr
    requires m[it.addr + 4] == it.size && m[b.addr + 4] == b.size && m[it.addr] == next.addr
    requires 0 <= next.addr && next.addr + HEADER <= |m| && m[next.addr + 4] == next.size
    requires next.addr != hi ==> m[next.addr] == after
    requires Clear(it.addr, b.addr)
    ensures var right := b.End() == next.addr && next.addr != hi;
            Linked(m, m', it.addr, Block(b.addr, b.size + if right then next.size else 0),
                   if right then after else next.addr)
  {
  }

  lemma MergedPlace(m: seq<Word>, m': seq<Word>, ns: seq<Block>, fs: seq<Block>, hi: int, k: nat, b: Block)
    requires PlaceLinks(m, ns, fs, k) && PlaceFacts(ns, fs, hi, k, b)
    requires 0 <= b.addr && b.addr + HEADER <= |m| && m[b.addr + 4] == b.size && Merged(m, m', ns[k].addr, b.addr, hi)
    ensures Linked(m, m', ns[First(fs, k, b)].addr, Joined(fs, k, b), ns[Last(fs, k, b) + 1].addr)
  {
    hide Merged, Linked;
    var after := if k < |fs| then ns[k + 2].addr else 0;
    if k == 0 {
      MergedFirst(m, m', hi, ns[0], b, ns[1], after);
    } else {
      MergedLinked(m, m', hi, ns[k - 1].addr, ns[k], b, ns[k + 1], after);
    }
  }

  lemma MergedWrites(m: seq<Word>, m': seq<Word>, xs: int, fs: seq<Block>, r: Region, b: Block)
    requires Insertable(xs, fs, r, b) && Chain(m, Nodes(xs, fs, r.hi))
    requires b.addr + HEADER <= |m| && m[b.addr + 4] == b.size
    requires Merged(m, m', Nodes(xs, fs, r.hi)[Position(fs, b.addr)].addr, b.addr, r.hi)
    ensures InsertWrites(m, m', xs, fs, r.hi, b)
  {
    InsertFacts(m, xs, fs, r, b);
    MergedPlace(m, m', Nodes(xs, fs, r.hi), fs, r.hi, Position(fs, b.addr), b);
  }

  lemma NodesSplice(xs: int, fs: seq<Block>, hi: int, l: nat, h: nat, j: Block)
    requires l <= h <= |fs|
    ensures Nodes(xs, Splice(fs, l, h, j), hi) == Splice(Nodes(xs, fs, hi), l + 1, h + 1, j)
  {
    var ns := Nodes(xs, fs, hi);
    assert ns[..l + 1] == [Block(xs, 0)] + fs[..l];
    assert ns[h + 1..] == fs[h..] + [Block(hi, 0)];
  }

  lemma ChainSpliceApart(m: seq<Word>, m': seq<Word>, ns: seq<Block>, gs: seq<Block>, l: nat, h: nat, j: Block)
    requires Chain(m, ns) && Apart(ns) && 1 <= l <= h < |ns|
    requires Linked(m, m', ns[l - 1].addr, j, ns[h].addr)
    requires gs == Splice(ns, l, h, j) && Apart(gs)
    ensures Chain(m', gs)
  {
    SpliceIndex(ns, l, h, j);
    forall i | 0 <= i < |ns| && (i < l || h <= i) ensures Clear(ns[i].addr, j.addr) {
      assert gs[if i < l then i else l + 1 + i - h] == ns[i];
    }
    ChainSplice(m, m', ns, l, h, j);
  }

  lemma InsertedNodes(xs: int, fs: seq<Block>, r: Region, b: Block, l: nat, h: nat, j: Block)
    requires Insertable(xs, fs, r, b)
    requires var k := Position(fs, b.addr);
             l == First(fs, k, b) + 1 && h == Last(fs, k, b) + 1 && j == Joined(fs, k, b)
    ensures Apart(Nodes(xs, fs, r.hi)) && Apart(Nodes(xs, Insert(fs, b), r.hi))
    ensures Nodes(xs, Insert(fs, b), r.hi) == Splice(Nodes(xs, fs, r.hi), l, h, j)
  {
    hide Apart, Canonical, Roomy, Fits, Nodes, Splice, Position;
    InsertRoomy(xs, fs, r, b);
    NodesApart(xs, fs, r);
    NodesApart(xs, Insert(fs, b), r);
    NodesSplice(xs, fs, r.hi, l - 1, h - 1, j);
  }

  lemma ChainInsert(m: seq<Word>, m': seq<Word>, xs: int, fs: seq<Block>, r: Region, b: Block)
    requires Insertable(xs, fs, r, b)
    requires Chain(m, Nodes(xs, fs, r.hi)) && InsertWrites(m, m', xs, fs, r.hi, b)
    ensures Chain(m', Nodes(xs, Insert(fs, b), r.hi))
  {
    var ns, gs, k := Nodes(xs, fs, r.hi), Nodes(xs, Insert(fs, b), r.hi), Position(fs, b.addr);
    var l, h, j := First(fs, k, b) + 1, Last(fs, k, b) + 1, Joined(fs, k, b);
    InsertedNodes(xs, fs, r, b, l, h, j);
    ChainSpliceApart(m, m', ns, gs, l, h, j);
  }

  lemma InsertFrame(m: seq<Word>, m': seq<Word>, xs: int, fs: seq<Block>, r: Region, b: Block)
    requires Insertable(xs, fs, r, b) && InsertWrites(m, m', xs, fs, r.hi, b)
    ensures Untouched(m, m', Insert(fs, b), xs)
  {
    var ns, k := Nodes(xs, fs, r.hi), Position(fs, b.addr);
    var l, h, j := First(fs, k, b), Last(fs, k, b), Joined(fs, k, b);
    SpliceIndex(fs, l, h, j);
    InsertRoomy(xs, fs, r, b);
    var gs := Insert(fs, b);
    assert gs[l] == j;
    assert gs[l].Has(j.addr) && gs[l].Has(j.addr + 4);
    if l > 0 {
      assert ns[l] == fs[l - 1] && gs[l - 1] == fs[l - 1];
      assert gs[l - 1].Has(ns[l].addr);
    }
  }

  lemma InsertClears(m: seq<Word>, m': seq<Word>, xs: int, fs: seq<Block>, r: Region, b: Block)
    requires Insertable(xs, fs, r, b) && InsertWrites(m, m', xs, fs, r.hi, b)
    requires AllAligned(fs) && Aligned(b)
    ensures StaysClear(m, m', r)
  {
    var ns, k := Nodes(xs, fs, r.hi), Position(fs, b.addr);
    var l, h, j := First(fs, k, b), Last(fs, k, b), Joined(fs, k, b);
    JoinedPlace(xs, fs, r, b, k);
    if l > 0 {
      assert ns[l] == fs[l - 1] && Aligned(fs[l - 1]);
    }
    LinkedClears(m, m', r, ns[l].addr, j, ns[h + 1].addr);
  }

  lemma JoinedPlace(xs: int, fs: seq<Block>, r: Region, b: Block, k: nat)
    requires Insertable(xs, fs, r, b) && AllAligned(fs) && Aligned(b) && k == Position(fs, b.addr)
    ensures Joined(fs, k, b).addr % 8 == 0 && BlockIn(Joined(fs, k, b), r)
  {
    JoinedIn(fs, b, r);
    assert First(fs, k, b) < k ==> Aligned(fs[k - 1]);
  }

  lemma LinkedClears(m: seq<Word>, m': seq<Word>, r: Region, prev: int, j: Block, next: int)
    requires Linked(m, m', prev, j, next) && r.Valid() && BlockIn(j, r) && j.addr % 8 == 0
    requires prev % 8 == 0 || !(r.lo <= prev < r.hi)
    ensures StaysClear(m, m', r)
  {
  }

  lemma MergedInserts(m: seq<Word>, m': seq<Word>, xs: int, fs: seq<Block>, r: Region, b: Block)
    requires Insertable(xs, fs, r, b) && Chain(m, Nodes(xs, fs, r.hi)) && AllAligned(fs) && Aligned(b)
    requires b.addr + HEADER <= |m| && m[b.addr + 4] == b.size
    requires Merged(m, m', Nodes(xs, fs, r.hi)[Position(fs, b.addr)].addr, b.addr, r.hi)
    ensures Chain(m', Nodes(xs, Insert(fs, b), r.hi))
    ensures Untouched(m, m', Insert(fs, b), xs) && StaysClear(m, m', r)
  {
    MergedWrites(m, m', xs, fs, r, b);
    ChainInsert(m, m', xs, fs, r, b);
    InsertFrame(m, m', xs, fs, r, b);
    InsertClears(m, m', xs, fs, r, b);
  }

  // ---- What becomes of the blocks in use ----

  /** No word of a live block changes, neither of its header nor of its payload. */
  ghost predicate LiveKept(m: seq<Word>, m': seq<Word>, live: map<int, int>) {
    && |m'| == |m|
    && forall a :: 0 <= a < |m| && LiveAt(live, a) ==> m'[a] == m[a]
  }

  lemma KeptTwice(m: seq<Word>, m': seq<Word>, m'': seq<Word>, live: map<int, int>)
    requires LiveKept(m, m', live) && LiveKept(m', m'', live)
    ensures LiveKept(m, m'', live)
  {
  }

  lemma LiveInRegion(live: map<int, int>, r: Region, a: int)
    requires LiveOk(live, r) && LiveAt(live, a)
    ensures r.lo <= a < r.hi
  {
    var p :| p in live && p <= a < p + live[p];
    assert BlockIn(Block(p, live[p]), r);
  }

  lemma InsertKeepsLive(m: seq<Word>, m': seq<Word>, xs: int, r: Region, fs: seq<Block>, live: map<int, int>)
    requires Outside(xs, r) && LiveOk(live, r) && Untouched(m, m', fs, xs)
    requires forall a :: LiveAt(live, a) ==> !FreeAt(fs, a)
    ensures LiveKept(m, m', live)
  {
    forall a | 0 <= a < |m| && LiveAt(live, a) ensures m'[a] == m[a] {
      LiveInRegion(live, r, a);
    }
  }

  /** Writes into a free block, or to the sentinel. */
  lemma FreeWriteKeepsLive(m: seq<Word>, m': seq<Word>, xs: int, r: Region, s: State, w: set<int>)
    requires Inv(s, r) && Outside(xs, r) && |m'| == |m|
    requires forall a :: a in w ==> a == xs || FreeAt(s.free, a)
    requires forall a :: 0 <= a < |m| && a !in w ==> m'[a] == m[a]
    ensures LiveKept(m, m', s.live)
  {
    LiveNotFree(s, r);
    forall a | 0 <= a < |m| && LiveAt(s.live, a) ensures a !in w {
      LiveInRegion(s.live, r, a);
    }
  }

  lemma UnlinkKeepsLive(m: seq<Word>, m': seq<Word>, xs: int, r: Region, s: State, k: nat)
    requires Inv(s, r) && Outside(xs, r) && k < |s.free| && Unlinks(m, m', xs, r, s.free, k)
    ensures LiveKept(m, m', s.live)
  {
    var ns := Nodes(xs, s.free, r.hi);
    if k > 0 {
      assert ns[k] == s.free[k - 1] && BlockIn(s.free[k - 1], r);
      assert s.free[k - 1].Has(ns[k].addr);
    }
    FreeWriteKeepsLive(m, m', xs, r, s, {ns[k].addr});
  }

  lemma SplitKeepsLive(m: seq<Word>, m': seq<Word>, xs: int, r: Region, s: State, k: nat, want: int)
    requires Inv(s, r) && Outside(xs, r) && Grantable(s, k, want) && HEADER <= s.free[k].size - want
    requires SplitWrites(m, m', s.free[k], want)
    ensures LiveKept(m, m', s.live)
  {
    var b := s.free[k];
    assert b.Has(b.addr + 4) && b.Has(b.addr + want + 4);
    FreeWriteKeepsLive(m, m', xs, r, s, {b.addr + 4, b.addr + want + 4});
  }

  /** Handing over the block `b` writes its header, which no other live block has. */
  lemma MarkKeepsLive(m: seq<Word>, m': seq<Word>, r: Region, s: State, t: State, b: Block)
    requires Granted(s, t, r, b) && |m'| == |m|
    requires forall a :: 0 <= a < |m| && a != b.addr && a != b.addr + 4 ==> m'[a] == m[a]
    ensures LiveKept(m, m', s.live)
  {
    assert BlockIn(Block(b.addr, t.live[b.addr]), r) && 2 * HEADER <= t.live[b.addr];
    forall a | 0 <= a < |m| && LiveAt(s.live, a) ensures a != b.addr && a != b.addr + 4 {
      var p :| p in s.live && p <= a < p + s.live[p];
      assert p in t.live && t.live[p] == s.live[p] && p != b.addr;
    }
  }

  /** Freeing the block `h` writes its header and what the insertion writes. */
  lemma FreeKeepsLive(m: seq<Word>, m': seq<Word>, m'': seq<Word>, xs: int, r: Region, s: State, h: int)
    requires Inv(s, r) && Outside(xs, r) && h in s.live && |m'| == |m|
    requires forall a :: 0 <= a < |m| && a != h + 4 ==> m'[a] == m[a]
    requires Untouched(m', m'', Free(s, h + HEADER).free, xs)
    ensures LiveKept(m, m'', Free(s, h + HEADER).live)
  {
    hide Free, Untouched, FreeAt, LiveAt, Canonical, AllAligned, Tiles, StaleOk;
    var t := Free(s, h + HEADER);
    HeaderKeepsLive(m, m', r, s, h);
    FreeKeepsInv(s, r, h + HEADER);
    LiveNotFree(t, r);
    InsertKeepsLive(m', m'', xs, r, t.free, t.live);
  }

  lemma HeaderKeepsLive(m: seq<Word>, m': seq<Word>, r: Region, s: State, h: int)
    requires LiveOk(s.live, r) && h in s.live && |m'| == |m|
    requires forall a :: 0 <= a < |m| && a != h + 4 ==> m'[a] == m[a]
    ensures LiveKept(m, m', Free(s, h + HEADER).live)
  {
    assert BlockIn(Block(h, s.live[h]), r) && 2 * HEADER <= s.live[h];
    forall a | 0 <= a < |m| && LiveAt(s.live - {h}, a) ensures a != h + 4 {
      FreedBytes(s, r, h, a);
    }
  }

  // ---- Freeing, step by step ----

  /** The tests of `vPortFree` tell a live block from a stale header. */
  lemma FreeTests(m: seq<Word>, xs: int, r: Region, s: State, h: int)
    requires Inv(s, r) && Represents(m, xs, r, s) && (h in s.live || h in s.stale)
    ensures 0 < h && h + HEADER <= |m|
    ensures h in s.live <==> TOP_BIT <= m[h + 4]
    ensures h in s.live ==> m[h] == 0 && m[h + 4] == s.live[h] + TOP_BIT && s.bytes + s.live[h] < WORD_LIMIT
  {
    if h in s.live {
      assert BlockIn(Block(h, s.live[h]), r);
      FreeKeepsInv(s, r, h + HEADER);
      SumBounds(Free(s, h + HEADER).free, r, r.lo);
    } else {
      var i :| 0 <= i < |s.free| && s.free[i].Has(h);
      assert BlockIn(s.free[i], r);
    }
  }

  lemma ReleaseHeader(m: seq<Word>, m': seq<Word>, xs: int, r: Region, s: State, h: int)
    requires Inv(s, r) && Represents(m, xs, r, s) && h in s.live
    requires |m'| == |m| && m'[h + 4] == s.live[h]
    requires forall a :: 0 <= a < |m| && a != h + 4 ==> m'[a] == m[a]
    ensures Chain(m', Nodes(xs, s.free, r.hi))
    ensures LiveHeaders(m', s.live - {h}) && StaleHeaders(m', s.stale + {h})
  {
    assert BlockIn(Block(h, s.live[h]), r);
    LiveClear(xs, r, s, h);
    ChainFrame(m, m', Nodes(xs, s.free, r.hi));
  }

  /** The header of a live block is none of the list's headers. */
  lemma LiveClear(xs: int, r: Region, s: State, h: int)
    requires Inv(s, r) && Outside(xs, r) && h in s.live
    ensures forall i :: 0 <= i < |s.free| + 2 ==> Clear(Nodes(xs, s.free, r.hi)[i].addr, h)
  {
    var ns := Nodes(xs, s.free, r.hi);
    LiveFits(s, r, h);
    AlignedIsRoomy(s.free, r);
    assert BlockIn(Block(h, s.live[h]), r);
    forall i | 0 <= i < |ns| ensures Clear(ns[i].addr, h) {
      if 1 <= i <= |s.free| {
        assert ns[i] == s.free[i - 1];
      }
    }
  }

  lemma FreeInsertable(xs: int, r: Region, s: State, b: Block)
    requires Inv(s, r) && Outside(xs, r) && b.addr in s.live && b.size == s.live[b.addr]
    ensures Insertable(xs, s.free, r, b) && Aligned(b)
  {
    LiveFits(s, r, b.addr);
    AlignedIsRoomy(s.free, r);
    assert BlockIn(b, r);
  }

  lemma AfterInsert(m: seq<Word>, m': seq<Word>, xs: int, r: Region, fs: seq<Block>,
                    live: map<int, int>, stale: set<int>)
    requires r.Valid() && Outside(xs, r) && Canonical(fs, r) && LiveOk(live, r) && StaleOk(stale, fs)
    requires forall a :: LiveAt(live, a) ==> !FreeAt(fs, a)
    requires LiveHeaders(m, live) && StaleHeaders(m, stale)
    requires Untouched(m, m', fs, xs) && StaysClear(m, m', r)
    ensures LiveHeaders(m', live) && StaleHeaders(m', stale)
  {
    LiveUntouched(m, m', r, xs, fs, live);
    StaleStayClear(m, m', r, fs, stale);
  }

  lemma LiveNotFree(s: State, r: Region)
    requires Inv(s, r)
    ensures forall a :: LiveAt(s.live, a) ==> !FreeAt(s.free, a)
  {
    forall a | LiveAt(s.live, a) ensures r.lo <= a < r.hi {
      var p :| p in s.live && p <= a < p + s.live[p];
      assert BlockIn(Block(p, s.live[p]), r);
    }
  }

  // ---- Allocating, step by step ----

  lemma UnlinkStep(m: seq<Word>, m': seq<Word>, xs: int, r: Region, s: State, k: nat)
    requires Inv(s, r) && Represents(m, xs, r, s) && k < |s.free| && Unlinks(m, m', xs, r, s.free, k)
    ensures Chain(m', Nodes(xs, Without(s.free, k), r.hi))
    ensures m'[s.free[k].addr + 4] == s.free[k].size
    ensures LiveHeaders(m', s.live) && StaleHeaders(m', s.stale)
  {
    AlignedIsRoomy(s.free, r);
    UnlinkChain(m, m', xs, r, s.free, k);
    var ns := Nodes(xs, s.free, r.hi);
    forall p | p in s.live ensures Clear(ns[k].addr, p) {
      LiveClear(xs, r, s, p);
    }
    StaleSizesApart(xs, r, s, k);
  }

  lemma UnlinkChain(m: seq<Word>, m': seq<Word>, xs: int, r: Region, fs: seq<Block>, k: nat)
    requires r.Valid() && Outside(xs, r) && Canonical(fs, r) && Roomy(fs)
    requires Chain(m, Nodes(xs, fs, r.hi)) && k < |fs| && Unlinks(m, m', xs, r, fs, k)
    ensures Chain(m', Nodes(xs, Without(fs, k), r.hi))
    ensures m'[fs[k].addr + 4] == fs[k].size
  {
    hide Canonical, Roomy, Without;
    var ns := Nodes(xs, fs, r.hi);
    NodesApart(xs, fs, r);
    ChainWithout(m, m', ns, k + 1);
    WithoutNodes(xs, fs, r.hi, k);
    assert ns[k + 1] == fs[k];
    assert Clear(ns[k].addr, ns[k + 1].addr);
  }

  lemma WithoutNodes(xs: int, fs: seq<Block>, hi: int, k: nat)
    requires k < |fs|
    ensures Nodes(xs, Without(fs, k), hi) == Without(Nodes(xs, fs, hi), k + 1)
  {
    var ns := Nodes(xs, fs, hi);
    assert ns[..k + 1] == [Block(xs, 0)] + fs[..k];
    assert ns[k + 2..] == fs[k + 1..] + [Block(hi, 0)];
  }

  /** Links sit on multiples of eight, the size words of stale headers do not. */
  lemma StaleSizesApart(xs: int, r: Region, s: State, k: nat)
    requires Inv(s, r) && Outside(xs, r) && k <= |s.free|
    ensures forall a :: a in s.stale ==> a + 4 != Nodes(xs, s.free, r.hi)[k].addr
  {
    var ns := Nodes(xs, s.free, r.hi);
    if k > 0 {
      assert ns[k] == s.free[k - 1] && Aligned(s.free[k - 1]);
    }
    forall a | a in s.stale ensures a + 4 != ns[k].addr {
      StaleInside(r, s.free, a);
    }
  }

  /** No header of the chain lies inside the block `b`. */
  ghost predicate AroundNodes(ns: seq<Block>, b: Block) {
    forall i :: 0 <= i < |ns| ==> ns[i].addr + HEADER <= b.addr || b.End() <= ns[i].addr
  }

  lemma WithoutAround(xs: int, r: Region, s: State, k: nat)
    requires Inv(s, r) && Outside(xs, r) && k < |s.free|
    ensures AroundNodes(Nodes(xs, Without(s.free, k), r.hi), s.free[k])
  {
    var b, ns := s.free[k], Nodes(xs, Without(s.free, k), r.hi);
    AlignedIsRoomy(s.free, r);
    assert BlockIn(b, r);
    forall i | 0 <= i < |ns| ensures ns[i].addr + HEADER <= b.addr || b.End() <= ns[i].addr {
      if 1 <= i < |ns| - 1 {
        var i' := if i - 1 < k then i - 1 else i;
        assert ns[i] == s.free[i'];
        assert if i' < k then s.free[i'].End() < b.addr else b.End() < s.free[i'].addr;
      }
    }
  }

  /** What the new state says about the blocks that were live before the allocation. */
  lemma GrantKeepsLive(s: State, r: Region, k: nat, want: int)
    requires Inv(s, r) && Grantable(s, k, want)
    ensures var t := Grant(s, k, want);
            && Inv(t, r)
            && (forall a :: LiveAt(s.live, a) ==> !FreeAt(t.free, a))
            && s.free[k].addr !in s.live
  {
    var t, b := Grant(s, k, want), Taken(s.free[k], want);
    GrantKeepsInv(s, r, k, want);
    LiveNotFree(t, r);
    assert BlockIn(s.free[k], r);
    TakenApart(s, r, k, b);
    forall a | LiveAt(s.live, a) ensures LiveAt(t.live, a) {
      TakenByte(s, r, b, a);
    }
  }

  lemma GrantStale(s: State, r: Region, k: nat, want: int)
    requires Grantable(s, k, want)
    ensures Grant(s, k, want).stale <= s.stale && s.free[k].addr !in Grant(s, k, want).stale
  {
    assert Taken(s.free[k], want).Has(s.free[k].addr);
  }

  /** The remainder of a split block can go back into the list without it. */
  lemma RemainderInsertable(xs: int, r: Region, s: State, k: nat, want: int)
    requires Inv(s, r) && Outside(xs, r) && Grantable(s, k, want) && HEADER <= s.free[k].size - want
    ensures var b := Block(s.free[k].addr + want, s.free[k].size - want);
            Insertable(xs, Without(s.free, k), r, b) && Aligned(b)
    ensures AllAligned(Without(s.free, k))
  {
    var b := Block(s.free[k].addr + want, s.free[k].size - want);
    WithoutCanonical(s.free, r, k);
    RemainderFits(s.free, r, k, b);
    assert BlockIn(s.free[k], r);
    RemainderAligned(s.free, k, want);
    AlignedIsRoomy(Without(s.free, k), r);
  }

  lemma RemainderAligned(fs: seq<Block>, k: nat, want: int)
    requires AllAligned(fs) && k < |fs| && want % 8 == 0
    ensures AllAligned(Without(fs, k)) && Aligned(Block(fs[k].addr + want, fs[k].size - want))
  {
    var rest := Without(fs, k);
    assert forall i :: 0 <= i < |rest| ==> rest[i] == if i < k then fs[i] else fs[i + 1];
    assert Aligned(fs[k]);
  }

  /** The two size words written when a block is split. */
  ghost predicate SplitWrites(m: seq<Word>, m': seq<Word>, b: Block, want: int) {
    && |m'| == |m|
    && 0 <= b.addr && 0 < want && b.addr + want + HEADER <= |m|
    && m'[b.addr + 4] == want
    && m'[b.addr + want + 4] == b.size - want
    && forall a :: 0 <= a < |m| && a != b.addr + 4 && a != b.addr + want + 4 ==> m'[a] == m[a]
  }

  lemma SplitLive(m: seq<Word>, m': seq<Word>, r: Region, s: State, k: nat, want: int)
    requires Inv(s, r) && k < |s.free| && LiveHeaders(m, s.live)
    requires HEADER <= s.free[k].size - want && SplitWrites(m, m', s.free[k], want)
    ensures LiveHeaders(m', s.live)
  {
    TakenApart(s, r, k, s.free[k]);
    assert BlockIn(s.free[k], r);
  }

  lemma SplitStale(m: seq<Word>, m': seq<Word>, r: Region, b: Block, want: int, stale: set<int>, kept: set<int>)
    requires r.Valid() && BlockIn(b, r) && StaleHeaders(m, stale) && SplitWrites(m, m', b, want)
    requires kept <= stale && b.addr !in kept
    ensures StaleHeaders(m', kept)
  {
  }

  /** The insertion of the remainder leaves the taken block's header alone. */
  lemma TakenUntouched(m: seq<Word>, m': seq<Word>, xs: int, r: Region, s: State, k: nat, want: int)
    requires Inv(s, r) && Outside(xs, r) && Grantable(s, k, want)
    requires s.free[k].addr + HEADER <= |m| && Untouched(m, m', Grant(s, k, want).free, xs)
    ensures m'[s.free[k].addr + 4] == m[s.free[k].addr + 4]
  {
    var t, h := Grant(s, k, want), s.free[k].addr;
    GrantKeepsInv(s, r, k, want);
    LiveNotFree(t, r);
    assert BlockIn(s.free[k], r) && BlockIn(Block(h, t.live[h]), r);
    assert h <= h + 4 < h + t.live[h];
    assert LiveAt(t.live, h + 4);
  }

  /** Setting the top bit hands the block over. */
  lemma MarkStep(m: seq<Word>, m': seq<Word>, xs: int, r: Region, s: State, t: State, b: Block)
    requires Granted(s, t, r, b) && Outside(xs, r)
    requires |m'| == |m| && 0 <= b.addr && b.addr + HEADER <= |m|
    requires Chain(m, Nodes(xs, t.free, r.hi)) && LiveHeaders(m, s.live) && StaleHeaders(m, t.stale)
    requires m'[b.addr] == 0 && m'[b.addr + 4] == b.size + TOP_BIT
    requires forall a :: 0 <= a < |m| && a != b.addr && a != b.addr + 4 ==> m'[a] == m[a]
    ensures Represents(m', xs, r, t)
  {
    LiveClear(xs, r, t, b.addr);
    ChainFrame(m, m', Nodes(xs, t.free, r.hi));
    assert BlockIn(Block(b.addr, t.live[b.addr]), r);
    forall p | p in s.live ensures Clear(p, b.addr) {
      assert p in t.live && t.live[p] == s.live[p];
    }
    MarkedStale(m, m', r, t, b);
  }

  lemma MarkedStale(m: seq<Word>, m': seq<Word>, r: Region, t: State, b: Block)
    requires Inv(t, r) && b.addr in t.live && b.size == t.live[b.addr]
    requires |m'| == |m| && StaleHeaders(m, t.stale)
    requires forall a :: 0 <= a < |m| && a != b.addr && a != b.addr + 4 ==> m'[a] == m[a]
    ensures StaleHeaders(m', t.stale)
  {
    LiveNotFree(t, r);
    assert Aligned(Block(b.addr, t.live[b.addr]));
    forall a | a in t.stale ensures a + 4 != b.addr && a + 4 != b.addr + 4 {
      assert b.addr <= b.addr < b.addr + t.live[b.addr];
      assert LiveAt(t.live, b.addr);
    }
  }

  /** Memory just before the block `b` is marked: the new list, the old live blocks, the block's size. */
  ghost predicate Unmarked(m: seq<Word>, xs: int, r: Region, s: State, t: State, b: Block) {
    && Chain(m, Nodes(xs, t.free, r.hi))
    && LiveHeaders(m, s.live)
    && StaleHeaders(m, t.stale)
    && 0 <= b.addr && b.addr + HEADER <= |m| && m[b.addr + 4] == b.size
  }

  /** The tests and reads of a successful allocation. */
  lemma TakeReady(m: seq<Word>, xs: int, r: Region, s: State, k: nat, want: int)
    requires Inv(s, r) && Represents(m, xs, r, s) && Grantable(s, k, want)
    ensures var ns, b := Nodes(xs, s.free, r.hi), s.free[k];
            && ns[k + 1] == b && 0 < b.addr && b.End() <= r.hi
            && 0 <= ns[k].addr && ns[k].addr + HEADER <= |m| && b.addr + HEADER <= |m|
            && Clear(ns[k].addr, b.addr)
            && m[ns[k].addr] == b.addr && m[b.addr] == ns[k + 2].addr && m[b.addr + 4] == b.size
            && b.size <= s.bytes && b.size < TOP_BIT
            && AroundNodes(Nodes(xs, Without(s.free, k), r.hi), b)
  {
    var ns, b := Nodes(xs, s.free, r.hi), s.free[k];
    assert ns[k + 1] == b && BlockIn(b, r);
    assert m[ns[k].addr] == ns[k + 1].addr && m[ns[k + 1].addr] == ns[k + 2].addr;
    SumBounds(s.free, r, r.lo);
    AlignedIsRoomy(s.free, r);
    NodesApart(xs, s.free, r);
    WithoutAround(xs, r, s, k);
  }

  /** The one link rewritten when the `k`th block leaves the list. */
  ghost predicate Unlinks(m: seq<Word>, m': seq<Word>, xs: int, r: Region, fs: seq<Block>, k: nat)
    requires k < |fs|
  {
    var ns := Nodes(xs, fs, r.hi);
    && |m'| == |m| && 0 <= ns[k].addr < |m| && m'[ns[k].addr] == ns[k + 2].addr
    && forall a :: 0 <= a < |m| && a != ns[k].addr ==> m'[a] == m[a]
  }

  /** The block was split, and the remainder `b` inserted. */
  lemma SplitDone(m0: seq<Word>, m1: seq<Word>, m2: seq<Word>, m3: seq<Word>, xs: int, r: Region,
                  s: State, k: nat, want: int, b: Block)
    requires Inv(s, r) && Represents(m0, xs, r, s) && Grantable(s, k, want)
    requires b == Block(s.free[k].addr + want, s.free[k].size - want) && MINIMUM_BLOCK_SIZE < b.size
    requires Unlinks(m0, m1, xs, r, s.free, k) && SplitWrites(m1, m2, s.free[k], want)
    requires Chain(m3, Nodes(xs, Insert(Without(s.free, k), b), r.hi))
    requires Untouched(m2, m3, Insert(Without(s.free, k), b), xs) && StaysClear(m2, m3, r)
    ensures Unmarked(m3, xs, r, s, Grant(s, k, want), Taken(s.free[k], want))
    ensures LiveKept(m0, m3, s.live)
  {
    hide Chain, LiveHeaders, StaleHeaders, Untouched, StaysClear, Insert, Without, Inv, Unlinks, LiveKept;
    GrantStale(s, r, k, want);
    SplitHeaders(m0, m1, m2, xs, r, s, k, want, Grant(s, k, want).stale);
    RemainderHeaders(m2, m3, xs, r, s, k, want);
    UnlinkKeepsLive(m0, m1, xs, r, s, k);
    SplitKeepsLive(m1, m2, xs, r, s, k, want);
    KeptTwice(m0, m1, m2, s.live);
    RemainderKeepsLive(m2, m3, xs, r, s, k, want);
    KeptTwice(m0, m2, m3, s.live);
  }

  lemma RemainderKeepsLive(m: seq<Word>, m': seq<Word>, xs: int, r: Region, s: State, k: nat, want: int)
    requires Inv(s, r) && Outside(xs, r) && Grantable(s, k, want)
    requires Untouched(m, m', Grant(s, k, want).free, xs)
    ensures LiveKept(m, m', s.live)
  {
    hide Grant, Untouched;
    GrantKeepsLive(s, r, k, want);
    InsertKeepsLive(m, m', xs, r, Grant(s, k, want).free, s.live);
  }

  lemma RemainderHeaders(m: seq<Word>, m': seq<Word>, xs: int, r: Region, s: State, k: nat, want: int)
    requires Inv(s, r) && Outside(xs, r) && Grantable(s, k, want) && s.free[k].addr + HEADER <= |m|
    requires LiveHeaders(m, s.live) && StaleHeaders(m, Grant(s, k, want).stale)
    requires Untouched(m, m', Grant(s, k, want).free, xs) && StaysClear(m, m', r)
    ensures LiveHeaders(m', s.live) && StaleHeaders(m', Grant(s, k, want).stale)
    ensures |m'| == |m| && 0 <= s.free[k].addr && m'[s.free[k].addr + 4] == m[s.free[k].addr + 4]
  {
    var t := Grant(s, k, want);
    GrantKeepsLive(s, r, k, want);
    AfterInsert(m, m', xs, r, t.free, s.live, t.stale);
    TakenUntouched(m, m', xs, r, s, k, want);
    assert BlockIn(s.free[k], r);
  }

  lemma SplitHeaders(m0: seq<Word>, m1: seq<Word>, m2: seq<Word>, xs: int, r: Region,
                     s: State, k: nat, want: int, kept: set<int>)
    requires Inv(s, r) && Represents(m0, xs, r, s) && k < |s.free| && HEADER <= s.free[k].size - want
    requires Unlinks(m0, m1, xs, r, s.free, k) && SplitWrites(m1, m2, s.free[k], want)
    requires kept <= s.stale && s.free[k].addr !in kept
    ensures LiveHeaders(m2, s.live) && StaleHeaders(m2, kept)
  {
    UnlinkStep(m0, m1, xs, r, s, k);
    assert BlockIn(s.free[k], r);
    SplitLive(m1, m2, r, s, k, want);
    SplitStale(m1, m2, r, s.free[k], want, s.stale, kept);
  }

  /** The block is handed out whole. */
  lemma WholeDone(m0: seq<Word>, m1: seq<Word>, xs: int, r: Region, s: State, k: nat, want: int)
    requires Inv(s, r) && Represents(m0, xs, r, s) && Grantable(s, k, want)
    requires s.free[k].size - want <= MINIMUM_BLOCK_SIZE
    requires Unlinks(m0, m1, xs, r, s.free, k)
    ensures Unmarked(m1, xs, r, s, Grant(s, k, want), Taken(s.free[k], want))
    ensures LiveKept(m0, m1, s.live)
  {
    hide Chain, LiveHeaders, StaleHeaders, Inv, Unlinks, Without, LiveKept;
    GrantStale(s, r, k, want);
    UnlinkStep(m0, m1, xs, r, s, k);
    FewerStale(m1, s.stale, Grant(s, k, want).stale);
    FreeHeaderInside(m0, m1, xs, r, s, k);
    UnlinkKeepsLive(m0, m1, xs, r, s, k);
  }

  lemma FewerStale(m: seq<Word>, stale: set<int>, kept: set<int>)
    requires StaleHeaders(m, stale) && kept <= stale
    ensures StaleHeaders(m, kept)
  {
  }

  lemma FreeHeaderInside(m: seq<Word>, m': seq<Word>, xs: int, r: Region, s: State, k: nat)
    requires Chain(m, Nodes(xs, s.free, r.hi)) && k < |s.free| && Unlinks(m, m', xs, r, s.free, k)
    ensures 0 <= s.free[k].addr && s.free[k].addr + HEADER <= |m'|
  {
    assert Nodes(xs, s.free, r.hi)[k + 1] == s.free[k];
  }

  /** `t` follows from `s` by handing over the block `b`. */
  ghost predicate Granted(s: State, t: State, r: Region, b: Block) {
    && Inv(t, r)
    && b.addr !in s.live
    && t.live == s.live[b.addr := b.size]
    && t.bytes == s.bytes - b.size
    && t.minEver == Min(s.minEver, t.bytes)
  }

  lemma GrantGranted(s: State, r: Region, k: nat, want: int)
    requires Inv(s, r) && Grantable(s, k, want)
    ensures Granted(s, Grant(s, k, want), r, Taken(s.free[k], want))
  {
    GrantKeepsLive(s, r, k, want);
  }

  // ---- The application's own writes ----

  lemma StaleHeaderFree(s: State, r: Region, a: int)
    requires Inv(s, r) && a in s.stale
    ensures FreeAt(s.free, a + 4)
  {
    var i :| 0 <= i < |s.free| && s.free[i].Has(a);
    assert Aligned(s.free[i]);
    assert s.free[i].Has(a + 4);
  }

  /** No header of the allocator lies inside the payload of a live block. */
  lemma StoreStep(m: seq<Word>, m': seq<Word>, xs: int, r: Region, s: State, h: int, a: int)
    requires Inv(s, r) && Represents(m, xs, r, s) && h in s.live && h + HEADER <= a < h + s.live[h]
    requires |m'| == |m| && forall c :: 0 <= c < |m| && c != a ==> m'[c] == m[c]
    ensures Represents(m', xs, r, s)
  {
    StoreMissesNodes(xs, r, s, h, a);
    ChainFrame(m, m', Nodes(xs, s.free, r.hi));
    assert LiveAt(s.live, a);
    LiveNotFree(s, r);
    forall c | c in s.stale ensures c + 4 != a {
      StaleHeaderFree(s, r, c);
    }
  }

  lemma StoreMissesNodes(xs: int, r: Region, s: State, h: int, a: int)
    requires Inv(s, r) && Outside(xs, r) && h in s.live && h <= a < h + s.live[h]
    ensures var ns := Nodes(xs, s.free, r.hi);
            forall i :: 0 <= i < |ns| ==> a != ns[i].addr && a != ns[i].addr + 4
  {
    var ns := Nodes(xs, s.free, r.hi);
    LiveFits(s, r, h);
    AlignedIsRoomy(s.free, r);
    assert BlockIn(Block(h, s.live[h]), r);
    forall i | 0 <= i < |ns| ensures a != ns[i].addr && a != ns[i].addr + 4 {
      if 1 <= i <= |s.free| {
        assert ns[i] == s.free[i - 1];
      }
    }
  }
}
