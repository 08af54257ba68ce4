/** heap_4 as its callers see it: an address-ordered list of free blocks and a map of live ones.

    The free list is treated as the canonical form of a set of free bytes: blocks in address
    order, no two of them touching. Every result about "the same free list again" comes from
    the fact that a set of bytes has only one canonical form.
  */
module HeapModel {
  import opened Machine

  const HEADER: int := 8
  const MINIMUM_BLOCK_SIZE: int := 16

  datatype Block = Block(addr: int, size: int) {
    function End(): int {
      addr + size
    }

    predicate Has(a: int) {
      addr <= a < addr + size
    }
  }

  /** The bytes between the first block and the end marker `pxEnd`. */
  datatype Region = Region(lo: int, hi: int) {
    predicate Valid() {
      && 0 < lo < hi
      && hi + HEADER <= WORD_LIMIT
      && hi - lo < TOP_BIT
      && lo % 8 == 0
      && hi % 8 == 0
    }
  }

  /** `live` maps the header address of a block in use to its size. `stale` holds the header
      addresses of freed blocks whose header has not been handed out again since. */
  datatype State = State(free: seq<Block>, live: map<int, int>, stale: set<int>, bytes: int, minEver: int)

  // ---- Free lists as canonical forms ----

  ghost predicate Canonical(fs: seq<Block>, r: Region) {
    && (forall i :: 0 <= i < |fs| ==> BlockIn(fs[i], r))
    && (forall i, j :: 0 <= i < j < |fs| ==> fs[i].End() < fs[j].addr)
  }

  ghost predicate BlockIn(b: Block, r: Region) {
    && r.lo <= b.addr
    && 0 < b.size
    && b.addr + b.size <= r.hi
  }

  predicate Aligned(b: Block) {
    b.addr % 8 == 0 && b.size % 8 == 0
  }

  ghost predicate AllAligned(fs: seq<Block>) {
    forall i :: 0 <= i < |fs| ==> Aligned(fs[i])
  }

  ghost predicate FreeAt(fs: seq<Block>, a: int) {
    exists i :: 0 <= i < |fs| && fs[i].Has(a)
  }

  lemma FreeAtHead(fs: seq<Block>, r: Region, a: int)
    requires Canonical(fs, r) && fs != []
    ensures FreeAt(fs, a) <==> fs[0].Has(a) || FreeAt(fs[1..], a)
    ensures FreeAt(fs[1..], a) <==> FreeAt(fs, a) && fs[0].End() <= a
  {
    if FreeAt(fs, a) {
      var i :| 0 <= i < |fs| && fs[i].Has(a);
      if i > 0 {
        assert fs[1..][i - 1].Has(a);
      }
    }
    if FreeAt(fs[1..], a) {
      var i :| 0 <= i < |fs[1..]| && fs[1..][i].Has(a);
      assert fs[i + 1].Has(a);
    }
  }

  /** A set of bytes has one canonical form only. */
  lemma {:induction false} CanonicalUnique(f: seq<Block>, g: seq<Block>, r: Region)
    requires Canonical(f, r) && Canonical(g, r)
    requires forall a :: FreeAt(f, a) <==> FreeAt(g, a)
    ensures f == g
  {
    if f == [] {
      if g != [] {
        assert !FreeAt(f, g[0].addr);
        assert g[0].Has(g[0].addr);
        assert false;
      }
    } else {
      assert f[0].Has(f[0].addr);
      assert FreeAt(f, f[0].addr);
      assert g != [];
      assert g[0].Has(g[0].addr);
      assert FreeAt(g, g[0].addr);
      SameHead(f, g, r);
      forall a ensures FreeAt(f[1..], a) <==> FreeAt(g[1..], a) {
        FreeAtHead(f, r, a);
        FreeAtHead(g, r, a);
      }
      CanonicalUnique(f[1..], g[1..], r);
      assert f == [f[0]] + f[1..];
      assert g == [g[0]] + g[1..];
    }
  }

  lemma SameHead(f: seq<Block>, g: seq<Block>, r: Region)
    requires Canonical(f, r) && Canonical(g, r) && f != [] && g != []
    requires forall a :: FreeAt(f, a) <==> FreeAt(g, a)
    ensures f[0] == g[0]
  {
    HeadBounds(f, g, r);
    HeadBounds(g, f, r);
  }

  lemma HeadBounds(f: seq<Block>, g: seq<Block>, r: Region)
    requires Canonical(f, r) && Canonical(g, r) && f != [] && g != []
    requires forall a :: FreeAt(f, a) <==> FreeAt(g, a)
    ensures f[0].addr <= g[0].addr
    ensures f[0].addr == g[0].addr ==> f[0].size <= g[0].size
  {
    assert g[0].Has(g[0].addr);
    assert FreeAt(g, g[0].addr);
    if f[0].addr == g[0].addr && g[0].size < f[0].size {
      var e := g[0].End();
      assert !FreeAt(g, e);
      assert f[0].Has(e);
      assert false;
    }
  }

  // ---- Insertion with merging on both sides ----

  /** How many blocks lie below `a`: where the walk at the start of the insertion stops. */
  function Position(fs: seq<Block>, a: int): (k: nat)
    ensures k <= |fs|
    ensures forall i :: 0 <= i < k ==> fs[i].addr < a
    ensures k < |fs| ==> a <= fs[k].addr
  {
    if fs == [] || a <= fs[0].addr then 0 else
      var k := Position(fs[1..], a);
      assert forall i :: 0 < i < k + 1 ==> fs[i] == fs[1..][i - 1];
      k + 1
  }

  predicate JoinsLeft(fs: seq<Block>, k: nat, b: Block)
    requires k <= |fs|
  {
    0 < k && fs[k - 1].End() == b.addr
  }

  predicate JoinsRight(fs: seq<Block>, k: nat, b: Block)
    requires k <= |fs|
  {
    k < |fs| && b.End() == fs[k].addr
  }

  /** `b` merged with whichever neighbours it touches. */
  function Joined(fs: seq<Block>, k: nat, b: Block): Block
    requires k <= |fs|
  {
    var addr := if JoinsLeft(fs, k, b) then fs[k - 1].addr else b.addr;
    var end := if JoinsRight(fs, k, b) then fs[k].End() else b.End();
    Block(addr, end - addr)
  }

  /** The blocks `l..h` of the list replaced by `b`. */
  function Splice(fs: seq<Block>, l: nat, h: nat, b: Block): seq<Block>
    requires l <= h <= |fs|
  {
    fs[..l] + [b] + fs[h..]
  }

  function First(fs: seq<Block>, k: nat, b: Block): (l: nat)
    requires k <= |fs|
    ensures l <= k
  {
    if JoinsLeft(fs, k, b) then k - 1 else k
  }

  function Last(fs: seq<Block>, k: nat, b: Block): (h: nat)
    requires k <= |fs|
    ensures k <= h <= |fs|
  {
    if JoinsRight(fs, k, b) then k + 1 else k
  }

  function InsertAt(fs: seq<Block>, k: nat, b: Block): seq<Block>
    requires k <= |fs|
  {
    Splice(fs, First(fs, k, b), Last(fs, k, b), Joined(fs, k, b))
  }

  function Insert(fs: seq<Block>, b: Block): seq<Block> {
    InsertAt(fs, Position(fs, b.addr), b)
  }

  /** `b` overlaps no block of the list. */
  ghost predicate Fits(fs: seq<Block>, b: Block) {
    forall i :: 0 <= i < |fs| ==> fs[i].End() <= b.addr || b.End() <= fs[i].addr
  }

  lemma PositionSplits(fs: seq<Block>, b: Block, r: Region)
    requires Canonical(fs, r) && BlockIn(b, r) && Fits(fs, b)
    ensures var k := Position(fs, b.addr);
            && (forall i :: 0 <= i < k ==> fs[i].End() <= b.addr)
            && (forall i :: k <= i < |fs| ==> b.End() <= fs[i].addr)
  {
    var k := Position(fs, b.addr);
    forall i | k <= i < |fs| ensures b.End() <= fs[i].addr {
      assert i == k || fs[k].End() < fs[i].addr;
    }
  }

  lemma SpliceIndex(fs: seq<Block>, l: nat, h: nat, b: Block)
    requires l <= h <= |fs|
    ensures var gs := Splice(fs, l, h, b);
            && |gs| == |fs| + 1 + l - h
            && (forall i :: 0 <= i < l ==> gs[i] == fs[i])
            && gs[l] == b
            && (forall i :: h <= i < |fs| ==> gs[l + 1 + i - h] == fs[i])
            && (forall i :: l < i < |gs| ==> gs[i] == fs[h + i - l - 1])
  {
  }

  lemma SpliceCanonical(fs: seq<Block>, l: nat, h: nat, b: Block, r: Region)
    requires l <= h <= |fs| && Canonical(fs, r) && BlockIn(b, r)
    requires l > 0 ==> fs[l - 1].End() < b.addr
    requires h < |fs| ==> b.End() < fs[h].addr
    ensures Canonical(Splice(fs, l, h, b), r)
  {
    SpliceIndex(fs, l, h, b);
    var gs := Splice(fs, l, h, b);
    forall i, j | 0 <= i < j < |gs| ensures gs[i].End() < gs[j].addr {
      if j == l {
        assert i == l - 1 || fs[i].End() < fs[l - 1].addr;
      } else if i == l {
        assert j == l + 1 || fs[h].End() < fs[h + j - l - 1].addr;
      }
    }
  }

  lemma SpliceBytes(fs: seq<Block>, l: nat, h: nat, b: Block, a: int)
    requires l <= h <= |fs|
    ensures FreeAt(Splice(fs, l, h, b), a) <==>
            b.Has(a) || exists i :: 0 <= i < |fs| && (i < l || h <= i) && fs[i].Has(a)
  {
    SpliceIndex(fs, l, h, b);
    var gs := Splice(fs, l, h, b);
    if b.Has(a) {
      assert gs[l].Has(a);
    }
    if i :| 0 <= i < |fs| && (i < l || h <= i) && fs[i].Has(a) {
      assert gs[if i < l then i else l + 1 + i - h].Has(a);
    }
    if FreeAt(gs, a) && !b.Has(a) {
      var i :| 0 <= i < |gs| && gs[i].Has(a);
      assert fs[if i < l then i else h + i - l - 1].Has(a);
    }
  }

  lemma JoinedIn(fs: seq<Block>, b: Block, r: Region)
    requires Canonical(fs, r) && BlockIn(b, r) && Fits(fs, b)
    ensures var k := Position(fs, b.addr);
            var l, h, j := First(fs, k, b), Last(fs, k, b), Joined(fs, k, b);
            && BlockIn(j, r)
            && (l > 0 ==> fs[l - 1].End() < j.addr)
            && (h < |fs| ==> j.End() < fs[h].addr)
  {
    PositionSplits(fs, b, r);
    var k := Position(fs, b.addr);
    if k > 0 {
      assert BlockIn(fs[k - 1], r);
    }
    if k < |fs| {
      assert BlockIn(fs[k], r);
    }
  }

  lemma InsertCanonical(fs: seq<Block>, b: Block, r: Region)
    requires Canonical(fs, r) && BlockIn(b, r) && Fits(fs, b)
    ensures Canonical(Insert(fs, b), r)
  {
    JoinedIn(fs, b, r);
    var k := Position(fs, b.addr);
    SpliceCanonical(fs, First(fs, k, b), Last(fs, k, b), Joined(fs, k, b), r);
  }

  lemma JoinedBytes(fs: seq<Block>, k: nat, b: Block, a: int)
    requires k <= |fs| && 0 < b.size
    requires k > 0 ==> 0 < fs[k - 1].size
    requires k < |fs| ==> 0 < fs[k].size
    ensures Joined(fs, k, b).Has(a) <==>
            || b.Has(a)
            || (First(fs, k, b) < k && fs[k - 1].Has(a))
            || (k < Last(fs, k, b) && fs[k].Has(a))
  {
  }

  lemma InsertBytes(fs: seq<Block>, b: Block, r: Region, a: int)
    requires Canonical(fs, r) && BlockIn(b, r) && Fits(fs, b)
    ensures FreeAt(Insert(fs, b), a) <==> FreeAt(fs, a) || b.Has(a)
  {
    var k := Position(fs, b.addr);
    var l, h, j := First(fs, k, b), Last(fs, k, b), Joined(fs, k, b);
    assert k > 0 ==> BlockIn(fs[k - 1], r);
    assert k < |fs| ==> BlockIn(fs[k], r);
    JoinedBytes(fs, k, b, a);
    SpliceBytes(fs, l, h, j, a);
    if i :| 0 <= i < |fs| && fs[i].Has(a) {
      assert i < l || h <= i || i == k - 1 || i == k;
    }
  }

  lemma EightsAdd(a: int, b: int)
    requires a % 8 == 0 && b % 8 == 0
    ensures (a + b) % 8 == 0 && (a - b) % 8 == 0
  {
  }

  lemma JoinedAligned(fs: seq<Block>, k: nat, b: Block)
    requires k <= |fs| && Aligned(b) && (k > 0 ==> Aligned(fs[k - 1])) && (k < |fs| ==> Aligned(fs[k]))
    ensures Aligned(Joined(fs, k, b))
  {
    var addr := if JoinsLeft(fs, k, b) then fs[k - 1].addr else b.addr;
    var last := if JoinsRight(fs, k, b) then fs[k] else b;
    EightsAdd(last.addr, last.size);
    EightsAdd(last.End(), addr);
  }

  lemma InsertAligned(fs: seq<Block>, b: Block)
    requires AllAligned(fs) && Aligned(b)
    ensures AllAligned(Insert(fs, b))
  {
    hide Aligned, Joined;
    var k := Position(fs, b.addr);
    var l, h, j := First(fs, k, b), Last(fs, k, b), Joined(fs, k, b);
    SpliceIndex(fs, l, h, j);
    JoinedAligned(fs, k, b);
    forall i | 0 <= i < |Insert(fs, b)| ensures Aligned(Insert(fs, b)[i]) {
      assert i < l || i == l || Insert(fs, b)[i] == fs[h + i - l - 1];
    }
  }

  // ---- Sizes ----

  function Sum(fs: seq<Block>): int {
    if fs == [] then 0 else fs[0].size + Sum(fs[1..])
  }

  lemma {:induction false} SumAppend(f: seq<Block>, g: seq<Block>)
    ensures Sum(f + g) == Sum(f) + Sum(g)
  {
    if f == [] {
      assert f + g == g;
    } else {
      assert (f + g)[1..] == f[1..] + g;
      SumAppend(f[1..], g);
    }
  }

  lemma SumOne(b: Block)
    ensures Sum([b]) == b.size
  {
    assert [b][1..] == [];
  }

  lemma SumSplice(fs: seq<Block>, l: nat, h: nat, b: Block)
    requires l <= h <= |fs|
    ensures Sum(Splice(fs, l, h, b)) == Sum(fs) - Sum(fs[l..h]) + b.size
  {
    hide Sum;
    var before, middle, after := fs[..l], fs[l..h], fs[h..];
    assert fs == before + middle + after;
    SumAppend(before + middle, after);
    SumAppend(before, middle);
    SumAppend(before + [b], after);
    SumAppend(before, [b]);
    SumOne(b);
  }

  lemma InsertSum(fs: seq<Block>, b: Block)
    ensures Sum(Insert(fs, b)) == Sum(fs) + b.size
  {
    var k := Position(fs, b.addr);
    var l, h := First(fs, k, b), Last(fs, k, b);
    SumSplice(fs, l, h, Joined(fs, k, b));
    if l < k && k < h {
      assert fs[l..h] == [fs[k - 1]] + [fs[k]];
      SumAppend([fs[k - 1]], [fs[k]]);
    } else if l < h {
      assert fs[l..h] == [fs[l]];
    }
  }

  lemma {:induction false} SumBounds(fs: seq<Block>, r: Region, lo: int)
    requires Canonical(fs, r) && lo <= r.hi
    requires forall i :: 0 <= i < |fs| ==> lo <= fs[i].addr
    ensures 0 <= Sum(fs) <= r.hi - lo
    ensures forall i :: 0 <= i < |fs| ==> fs[i].size <= Sum(fs)
  {
    if fs != [] {
      SumBounds(fs[1..], r, fs[0].End());
      assert forall i :: 0 < i < |fs| ==> fs[i] == fs[1..][i - 1];
    }
  }

  // ---- The operations ----

  /** The bytes a request occupies: header included, rounded up to the alignment. */
  function Rounded(n: int): int {
    var w := n + HEADER;
    if w % 8 != 0 then w + (8 - w % 8) else w
  }

  /** First fit: the first block of at least `want` bytes, or the length of the list. */
  function FirstFit(fs: seq<Block>, want: int): (k: nat)
    ensures k <= |fs|
    ensures forall i :: 0 <= i < k ==> fs[i].size < want
    ensures k < |fs| ==> want <= fs[k].size
  {
    if fs == [] || want <= fs[0].size then 0 else
      var k := FirstFit(fs[1..], want);
      assert forall i :: 0 < i < k + 1 ==> fs[i] == fs[1..][i - 1];
      k + 1
  }

  lemma FirstFitIs(fs: seq<Block>, want: int, k: nat)
    requires k <= |fs|
    requires forall i :: 0 <= i < k ==> fs[i].size < want
    requires k < |fs| ==> want <= fs[k].size
    ensures k == FirstFit(fs, want)
  {
  }

  function InitState(r: Region): State {
    State([Block(r.lo, r.hi - r.lo)], map[], {}, r.hi - r.lo, r.hi - r.lo)
  }

  /** What is taken from the free block `b` for a request of `want` rounded bytes. */
  function Taken(b: Block, want: int): Block {
    Block(b.addr, if b.size - want > MINIMUM_BLOCK_SIZE then want else b.size)
  }

  function Without(fs: seq<Block>, k: nat): seq<Block>
    requires k < |fs|
  {
    fs[..k] + fs[k + 1..]
  }

  lemma WithoutIndex(fs: seq<Block>, k: nat)
    requires k < |fs|
    ensures |Without(fs, k)| == |fs| - 1
    ensures forall i :: 0 <= i < |fs| - 1 ==> Without(fs, k)[i] == if i < k then fs[i] else fs[i + 1]
  {
  }

  function FreeAfterTaking(fs: seq<Block>, k: nat, want: int): seq<Block>
    requires k < |fs|
  {
    var rest := Without(fs, k);
    if fs[k].size - want > MINIMUM_BLOCK_SIZE
    then Insert(rest, Block(fs[k].addr + want, fs[k].size - want))
    else rest
  }

  predicate Served(s: State, n: int) {
    0 < n < TOP_BIT && Rounded(n) <= s.bytes && FirstFit(s.free, Rounded(n)) < |s.free|
  }

  /** `want` bytes can be cut from the `k`th free block. */
  predicate Grantable(s: State, k: nat, want: int) {
    k < |s.free| && 2 * HEADER <= want <= s.free[k].size && want % 8 == 0
  }

  function Grant(s: State, k: nat, want: int): State
    requires k < |s.free|
  {
    var t := Taken(s.free[k], want);
    State(FreeAfterTaking(s.free, k, want),
          s.live[t.addr := t.size],
          (set a | a in s.stale && !t.Has(a)),
          s.bytes - t.size,
          Min(s.minEver, s.bytes - t.size))
  }

  function Malloc(s: State, n: int): State {
    if !Served(s, n) then s else Grant(s, FirstFit(s.free, Rounded(n)), Rounded(n))
  }

  /** The pointer malloc hands out; 0 is NULL. */
  function MallocPtr(s: State, n: int): int {
    if !Served(s, n) then 0 else s.free[FirstFit(s.free, Rounded(n))].addr + HEADER
  }

  function Free(s: State, p: int): State {
    var h := p - HEADER;
    if p == 0 || h !in s.live then s else
      State(Insert(s.free, Block(h, s.live[h])), s.live - {h}, s.stale + {h}, s.bytes + s.live[h], s.minEver)
  }

  // ---- The invariant ----

  ghost predicate LiveAt(live: map<int, int>, a: int) {
    exists p :: p in live && p <= a < p + live[p]
  }

  ghost predicate LiveOk(live: map<int, int>, r: Region) {
    && (forall p :: p in live ==> BlockIn(Block(p, live[p]), r) && Aligned(Block(p, live[p])) && 2 * HEADER <= live[p])
    && (forall p, q :: p in live && q in live && p < q ==> p + live[p] <= q)
  }

  /** Every byte of the region is in exactly one block, free or live. */
  ghost predicate Tiles(s: State, r: Region) {
    forall a :: r.lo <= a < r.hi ==> (FreeAt(s.free, a) <==> !LiveAt(s.live, a))
  }

  ghost predicate StaleOk(stale: set<int>, fs: seq<Block>) {
    forall a :: a in stale ==> a % 8 == 0 && FreeAt(fs, a)
  }

  ghost predicate Inv(s: State, r: Region) {
    && r.Valid()
    && Canonical(s.free, r)
    && AllAligned(s.free)
    && LiveOk(s.live, r)
    && Tiles(s, r)
    && StaleOk(s.stale, s.free)
    && s.bytes == Sum(s.free)
    && 0 <= s.minEver <= s.bytes
  }

  lemma InitInv(r: Region)
    requires r.Valid()
    ensures Inv(InitState(r), r)
  {
    var s := InitState(r);
    assert Sum(s.free) == s.free[0].size + Sum(s.free[1..]);
    assert forall a :: r.lo <= a < r.hi ==> s.free[0].Has(a);
  }

  /** A live block overlaps no free block. */
  lemma LiveFits(s: State, r: Region, h: int)
    requires Canonical(s.free, r) && LiveOk(s.live, r) && Tiles(s, r) && h in s.live
    ensures Fits(s.free, Block(h, s.live[h]))
  {
    var b := Block(h, s.live[h]);
    forall i | 0 <= i < |s.free| ensures s.free[i].End() <= b.addr || b.End() <= s.free[i].addr {
      var a := Max(s.free[i].addr, b.addr);
      assert BlockIn(s.free[i], r);
      assert s.free[i].Has(a) ==> FreeAt(s.free, a);
      assert b.Has(a) ==> LiveAt(s.live, a);
    }
  }

  lemma FreedTiles(s: State, r: Region, h: int)
    requires Canonical(s.free, r) && LiveOk(s.live, r) && Tiles(s, r) && h in s.live
    ensures Canonical(Insert(s.free, Block(h, s.live[h])), r)
    ensures forall a :: FreeAt(Insert(s.free, Block(h, s.live[h])), a) <==>
                        FreeAt(s.free, a) || Block(h, s.live[h]).Has(a)
    ensures Tiles(s.(free := Insert(s.free, Block(h, s.live[h])), live := s.live - {h}), r)
  {
    var b := Block(h, s.live[h]);
    LiveFits(s, r, h);
    InsertCanonical(s.free, b, r);
    forall a ensures FreeAt(Insert(s.free, b), a) <==> FreeAt(s.free, a) || b.Has(a) {
      InsertBytes(s.free, b, r, a);
    }
    forall a | r.lo <= a < r.hi ensures FreeAt(Insert(s.free, b), a) <==> !LiveAt(s.live - {h}, a) {
      FreedBytes(s, r, h, a);
    }
  }

  lemma StaleGrows(stale: set<int>, fs: seq<Block>, gs: seq<Block>, b: Block)
    requires StaleOk(stale, fs) && Aligned(b) && 0 < b.size
    requires forall a :: FreeAt(gs, a) <==> FreeAt(fs, a) || b.Has(a)
    ensures StaleOk(stale + {b.addr}, gs)
  {
    assert b.Has(b.addr);
  }

  lemma LiveShrinks(live: map<int, int>, r: Region, h: int)
    requires LiveOk(live, r)
    ensures LiveOk(live - {h}, r)
  {
  }

  lemma FreeKeepsInv(s: State, r: Region, p: int)
    requires Inv(s, r)
    ensures Inv(Free(s, p), r)
  {
    var h := p - HEADER;
    if p != 0 && h in s.live {
      var b := Block(h, s.live[h]);
      ReleaseKeepsInv(s, r, b);
      assert Free(s, p) == State(Insert(s.free, b), s.live - {b.addr}, s.stale + {b.addr}, s.bytes + b.size, s.minEver);
    }
  }

  lemma ReleaseKeepsInv(s: State, r: Region, b: Block)
    requires Inv(s, r) && b.addr in s.live && b.size == s.live[b.addr]
    ensures Inv(State(Insert(s.free, b), s.live - {b.addr}, s.stale + {b.addr}, s.bytes + b.size, s.minEver), r)
  {
    assert BlockIn(b, r) && Aligned(b);
    FreedTiles(s, r, b.addr);
    LiveShrinks(s.live, r, b.addr);
    InsertAligned(s.free, b);
    InsertSum(s.free, b);
    StaleGrows(s.stale, s.free, Insert(s.free, b), b);
  }

  lemma FreedBytes(s: State, r: Region, h: int, a: int)
    requires LiveOk(s.live, r) && h in s.live
    ensures LiveAt(s.live - {h}, a) <==> LiveAt(s.live, a) && !Block(h, s.live[h]).Has(a)
  {
    if LiveAt(s.live, a) && !Block(h, s.live[h]).Has(a) {
      var p :| p in s.live && p <= a < p + s.live[p];
      assert p in s.live - {h};
    }
    if LiveAt(s.live - {h}, a) {
      var p :| p in s.live - {h} && p <= a < p + (s.live - {h})[p];
      assert p in s.live;
    }
  }

  lemma WithoutCanonical(fs: seq<Block>, r: Region, k: nat)
    requires Canonical(fs, r) && k < |fs|
    ensures Canonical(Without(fs, k), r)
  {
    var rest := Without(fs, k);
    forall i | 0 <= i < |rest|
      ensures BlockIn(rest[i], r) && forall j :: i < j < |rest| ==> rest[i].End() < rest[j].addr
    {
      assert rest[i] == if i < k then fs[i] else fs[i + 1];
      assert forall j :: i < j < |rest| ==> rest[j] == if j < k then fs[j] else fs[j + 1];
    }
  }

  lemma {:induction false} WithoutSum(fs: seq<Block>, k: nat)
    requires k < |fs|
    ensures Sum(Without(fs, k)) == Sum(fs) - fs[k].size
    decreases k
  {
    if k == 0 {
      assert Without(fs, 0) == fs[1..];
    } else {
      WithoutSum(fs[1..], k - 1);
      assert Without(fs, k)[1..] == Without(fs[1..], k - 1);
    }
  }

  lemma WithoutByte(fs: seq<Block>, r: Region, k: nat, a: int)
    requires Canonical(fs, r) && k < |fs|
    ensures FreeAt(Without(fs, k), a) <==> FreeAt(fs, a) && !fs[k].Has(a)
  {
    var rest := Without(fs, k);
    assert forall i :: 0 <= i < |rest| ==> rest[i] == if i < k then fs[i] else fs[i + 1];
    if i :| 0 <= i < |rest| && rest[i].Has(a) {
      assert fs[if i < k then i else i + 1].Has(a);
      assert i < k ==> fs[i].End() < fs[k].addr;
      assert i >= k ==> fs[k].End() < fs[i + 1].addr;
    }
    if i :| 0 <= i < |fs| && i != k && fs[i].Has(a) {
      assert rest[if i < k then i else i - 1].Has(a);
    }
  }

  lemma RemainderFits(fs: seq<Block>, r: Region, k: nat, b: Block)
    requires Canonical(fs, r) && k < |fs|
    requires fs[k].addr <= b.addr && b.End() <= fs[k].End()
    ensures Fits(Without(fs, k), b)
  {
    var rest := Without(fs, k);
    forall i | 0 <= i < |rest| ensures rest[i].End() <= b.addr || b.End() <= rest[i].addr {
      assert rest[i] == if i < k then fs[i] else fs[i + 1];
    }
  }

  /** Taking a block out of the list removes exactly the bytes taken. */
  lemma TakingBytes(fs: seq<Block>, r: Region, k: nat, want: int)
    requires Canonical(fs, r) && k < |fs|
    requires 0 < want <= fs[k].size
    ensures Canonical(FreeAfterTaking(fs, k, want), r)
    ensures Sum(FreeAfterTaking(fs, k, want)) == Sum(fs) - Taken(fs[k], want).size
    ensures forall a :: FreeAt(FreeAfterTaking(fs, k, want), a) <==> FreeAt(fs, a) && !Taken(fs[k], want).Has(a)
  {
    WithoutCanonical(fs, r, k);
    WithoutSum(fs, k);
    if fs[k].size - want > MINIMUM_BLOCK_SIZE {
      var rest, b := Without(fs, k), Block(fs[k].addr + want, fs[k].size - want);
      RemainderFits(fs, r, k, b);
      InsertCanonical(rest, b, r);
      InsertSum(rest, b);
      forall a ensures FreeAt(Insert(rest, b), a) <==> FreeAt(fs, a) && !Taken(fs[k], want).Has(a) {
        RemainderByte(fs, r, k, want, a);
      }
    } else {
      forall a ensures FreeAt(Without(fs, k), a) <==> FreeAt(fs, a) && !fs[k].Has(a) {
        WithoutByte(fs, r, k, a);
      }
    }
  }

  lemma RemainderByte(fs: seq<Block>, r: Region, k: nat, want: int, a: int)
    requires Canonical(fs, r) && k < |fs|
    requires 0 < want < fs[k].size
    ensures var b := Block(fs[k].addr + want, fs[k].size - want);
            FreeAt(Insert(Without(fs, k), b), a) <==> FreeAt(fs, a) && !Block(fs[k].addr, want).Has(a)
  {
    var b := Block(fs[k].addr + want, fs[k].size - want);
    assert BlockIn(fs[k], r);
    WithoutCanonical(fs, r, k);
    WithoutByte(fs, r, k, a);
    RemainderFits(fs, r, k, b);
    InsertBytes(Without(fs, k), b, r, a);
    if fs[k].Has(a) {
      assert FreeAt(fs, a);
    }
  }

  lemma RoundedFacts(n: int)
    requires 0 < n < TOP_BIT
    ensures Rounded(n) % 8 == 0 && 2 * HEADER <= Rounded(n) && n + HEADER <= Rounded(n) < n + 2 * HEADER
  {
  }

  lemma TakingAligned(fs: seq<Block>, k: nat, want: int)
    requires AllAligned(fs) && k < |fs| && want % 8 == 0
    ensures AllAligned(FreeAfterTaking(fs, k, want)) && Aligned(Taken(fs[k], want))
  {
    var rest := Without(fs, k);
    assert forall i :: 0 <= i < |rest| ==> rest[i] == if i < k then fs[i] else fs[i + 1];
    assert Aligned(fs[k]);
    if fs[k].size - want > MINIMUM_BLOCK_SIZE {
      InsertAligned(rest, Block(fs[k].addr + want, fs[k].size - want));
    }
  }

  lemma TakenByte(s: State, r: Region, t: Block, a: int)
    requires t.addr !in s.live
    ensures LiveAt(s.live[t.addr := t.size], a) <==> LiveAt(s.live, a) || t.Has(a)
  {
    var live := s.live[t.addr := t.size];
    if LiveAt(s.live, a) {
      var p :| p in s.live && p <= a < p + s.live[p];
      assert p in live && live[p] == s.live[p];
    }
    if t.Has(a) {
      assert t.addr in live;
    }
  }

  /** A block cut from the free list overlaps no live block. */
  lemma TakenApart(s: State, r: Region, k: nat, t: Block)
    requires LiveOk(s.live, r) && Tiles(s, r) && Canonical(s.free, r) && k < |s.free|
    requires s.free[k].addr == t.addr && 0 < t.size <= s.free[k].size
    ensures forall p :: p in s.live ==> p + s.live[p] <= t.addr || t.End() <= p
  {
    assert BlockIn(s.free[k], r);
    forall p | p in s.live ensures p + s.live[p] <= t.addr || t.End() <= p {
      var a := Max(p, t.addr);
      assert r.lo <= a < r.hi && FreeAt(s.free, a) ==> !LiveAt(s.live, a);
      assert s.free[k].Has(a) ==> FreeAt(s.free, a);
      assert p <= a < p + s.live[p] ==> LiveAt(s.live, a);
    }
  }

  lemma TakenTiles(s: State, r: Region, k: nat, want: int)
    requires Canonical(s.free, r) && LiveOk(s.live, r) && Tiles(s, r) && k < |s.free|
    requires 0 < want <= s.free[k].size
    ensures var t := Taken(s.free[k], want);
            Tiles(s.(free := FreeAfterTaking(s.free, k, want), live := s.live[t.addr := t.size]), r)
  {
    var t := Taken(s.free[k], want);
    TakenApart(s, r, k, t);
    TakingBytes(s.free, r, k, want);
    forall a | r.lo <= a < r.hi
      ensures FreeAt(FreeAfterTaking(s.free, k, want), a) <==> !LiveAt(s.live[t.addr := t.size], a)
    {
      TakenByte(s, r, t, a);
      if t.Has(a) {
        assert s.free[k].Has(a);
      }
    }
  }

  lemma GrantKeepsInv(s: State, r: Region, k: nat, want: int)
    requires Inv(s, r) && Grantable(s, k, want)
    ensures Inv(Grant(s, k, want), r)
  {
    TakingBytes(s.free, r, k, want);
    TakingAligned(s.free, k, want);
    TakenTiles(s, r, k, want);
    TakenLiveOk(s, r, k, want);
    SumBounds(FreeAfterTaking(s.free, k, want), r, r.lo);
  }

  lemma ServedGrantable(s: State, n: int)
    requires Served(s, n)
    ensures Grantable(s, FirstFit(s.free, Rounded(n)), Rounded(n))
  {
    RoundedFacts(n);
  }

  lemma MallocKeepsInv(s: State, r: Region, n: int)
    requires Inv(s, r)
    ensures Inv(Malloc(s, n), r)
  {
    if Served(s, n) {
      ServedGrantable(s, n);
      GrantKeepsInv(s, r, FirstFit(s.free, Rounded(n)), Rounded(n));
    }
  }

  lemma TakenLiveOk(s: State, r: Region, k: nat, want: int)
    requires Canonical(s.free, r) && LiveOk(s.live, r) && Tiles(s, r) && k < |s.free|
    requires 2 * HEADER <= want <= s.free[k].size && Aligned(Taken(s.free[k], want))
    ensures var t := Taken(s.free[k], want);
            LiveOk(s.live[t.addr := t.size], r)
  {
    assert BlockIn(s.free[k], r);
    TakenApart(s, r, k, Taken(s.free[k], want));
  }
}
