/** The allocator itself: headers in memory, rewritten in place. */
module Heap {
  import opened Machine
  import opened HeapModel
  import opened HeapMemory

  /** Where `prvHeapInit` puts the first block and the end marker inside `ucHeap`. */
  function Span(ucHeap: int, total: int): Region {
    var lo := if ucHeap % 8 != 0 then ucHeap + 8 - ucHeap % 8 else ucHeap;
    var top := ucHeap + total - HEADER;
    Region(lo, top - top % 8)
  }

  /** The aligned start and end computed by `prvHeapInit` are those of the span. */
  lemma SpanIs(ucHeap: int, total: int, first: int, end: int)
    requires first == if ucHeap % 8 != 0 then ucHeap + 7 - (ucHeap + 7) % 8 else ucHeap
    requires var top := ucHeap + total - HEADER; end == top - top % 8
    ensures Span(ucHeap, total) == Region(first, end)
  {
  }

  /** `x & bit`, for the two values that `xBlockAllocatedBit` takes. */
  function And(x: Word, bit: Word): Word
    requires bit == 0 || bit == TOP_BIT
  {
    if bit == TOP_BIT && TOP_BIT <= x then TOP_BIT else 0
  }

  /** The span starts at the first multiple of eight and ends at the last one that leaves room for the
      end marker. */
  lemma SpanExact(ucHeap: int, total: int)
    ensures var r := Span(ucHeap, total);
            && r.lo % 8 == 0 && ucHeap <= r.lo < ucHeap + 8
            && r.hi % 8 == 0 && r.hi + 8 <= ucHeap + total < r.hi + 16
  {
  }

  class Allocator {
    const ucHeap: Word
    const totalHeapSize: Word
    const xStart: Word          // address of the list's sentinel
    const memory: array<Word>

    var pxEnd: Word             // 0 until the first allocation
    var xFreeBytesRemaining: Word
    var xMinimumEverFreeBytesRemaining: Word
    var xBlockAllocatedBit: Word

    ghost const region: Region
    ghost var model: State

    ghost predicate Configured() {
      && region.Valid()
      && Outside(xStart, region)
      && xStart + HEADER <= memory.Length
      && region.hi + HEADER <= memory.Length
    }

    ghost predicate Ready()
      reads this
    {
      pxEnd != 0
    }

    ghost predicate Valid()
      reads this, memory
    {
      && Configured()
      && (Ready() ==>
            && pxEnd == region.hi
            && xBlockAllocatedBit == TOP_BIT
            && Inv(model, region)
            && xFreeBytesRemaining == model.bytes
            && xMinimumEverFreeBytesRemaining == model.minEver
            && Represents(memory[..], xStart, region, model))
      && (!Ready() ==> xBlockAllocatedBit == 0 && region == Span(ucHeap, totalHeapSize) && model == InitState(region))
    }

    constructor (ucHeap: Word, totalHeapSize: Word, xStart: Word, memory: array<Word>)
      requires Span(ucHeap, totalHeapSize).Valid() && Outside(xStart, Span(ucHeap, totalHeapSize))
      requires xStart + HEADER <= memory.Length && Span(ucHeap, totalHeapSize).hi + HEADER <= memory.Length
      ensures Valid() && !Ready() && this.memory == memory
      ensures this.ucHeap == ucHeap && this.totalHeapSize == totalHeapSize && this.xStart == xStart
    {
      this.ucHeap, this.totalHeapSize, this.xStart, this.memory := ucHeap, totalHeapSize, xStart, memory;
      region := Span(ucHeap, totalHeapSize);
      pxEnd, xFreeBytesRemaining, xMinimumEverFreeBytesRemaining, xBlockAllocatedBit := 0, 0, 0, 0;
      model := InitState(Span(ucHeap, totalHeapSize));
    }

    /** The address arithmetic of `prvHeapInit`. */
    method AlignedEnds() returns (first: Word, end: Word)
      requires Configured() && region == Span(ucHeap, totalHeapSize)
      ensures Region(first, end) == region
    {
      var total: Word := totalHeapSize;
      var address: Word := ucHeap;
      if address % 8 != 0 {
        var up: Word := address + 7;
        address := up - up % 8;
        total := total - (address - ucHeap);
      }
      first := address;
      var top: Word := first + total - HEADER;
      end := top - top % 8;
      SpanIs(ucHeap, totalHeapSize, first, end);
    }

    method HeapInit()
      requires Valid() && !Ready()
      modifies this, memory
      ensures Valid() && Ready() && model == InitState(region)
      ensures LiveKept(old(memory[..]), memory[..], model.live)
    {
      hide Inv, Represents, Span;
      var first, end := AlignedEnds();
      memory[xStart] := first;
      memory[xStart + 4] := 0;

      pxEnd := end;
      memory[pxEnd + 4] := 0;
      memory[pxEnd] := 0;

      memory[first + 4] := pxEnd - first;
      memory[first] := pxEnd;

      xMinimumEverFreeBytesRemaining := memory[first + 4];
      xFreeBytesRemaining := memory[first + 4];
      xBlockAllocatedBit := TOP_BIT;

      model := InitState(region);
      InitInv(region);
      InitRepresents(memory[..], xStart, region);
    }

    /** The walk at the start of `prvInsertBlockIntoFreeList`. */
    method FindPlace(pxBlock: Word, ghost fs: seq<Block>) returns (it: Word, ghost k: nat)
      requires Configured() && Canonical(fs, region) && Chain(memory[..], Nodes(xStart, fs, region.hi))
      requires pxBlock <= region.hi
      ensures it == Nodes(xStart, fs, region.hi)[Position(fs, pxBlock)].addr && k == Position(fs, pxBlock)
    {
      ghost var ns := Nodes(xStart, fs, region.hi);
      k := 0;
      it := xStart;
      while memory[it] < pxBlock
        invariant k <= |fs| && it == ns[k].addr
        invariant forall i :: 0 <= i < k ==> fs[i].addr < pxBlock
        decreases |fs| - k
      {
        assert memory[..][ns[k].addr] == ns[k + 1].addr;
        it := memory[it];
        k := k + 1;
      }
      assert memory[..][ns[k].addr] == ns[k + 1].addr;
      PositionIs(fs, pxBlock, k);
    }

    /** The rest of it: merge with the block before, the block after, both or neither. */
    method MergeIn(it: Word, pxBlock: Word)
      requires it + HEADER <= memory.Length && pxBlock + HEADER <= memory.Length && Clear(it, pxBlock)
      requires memory[it] + HEADER <= memory.Length && Clear(it, memory[it]) && Clear(pxBlock, memory[it])
      requires pxBlock + memory[pxBlock + 4] <= memory[it]
      requires memory[it + 4] + memory[pxBlock + 4] + memory[memory[it] + 4] < WORD_LIMIT
      modifies memory
      ensures Merged(old(memory[..]), memory[..], it, pxBlock, pxEnd)
    {
      var block := pxBlock;
      if it + memory[it + 4] == block {
        memory[it + 4] := memory[it + 4] + memory[block + 4];
        block := it;
      }

      if block + memory[block + 4] == memory[it] {
        if memory[it] != pxEnd {
          memory[block + 4] := memory[block + 4] + memory[memory[it] + 4];
          memory[block] := memory[memory[it]];
        } else {
          memory[block] := pxEnd;
        }
      } else {
        memory[block] := memory[it];
      }

      if it != block {
        memory[it] := block;
      }
    }

    method InsertBlock(pxBlock: Word, ghost fs: seq<Block>, ghost b: Block)
      requires Configured() && pxEnd == region.hi && Insertable(xStart, fs, region, b)
      requires Chain(memory[..], Nodes(xStart, fs, region.hi))
      requires AllAligned(fs) && Aligned(b)
      requires pxBlock == b.addr && memory[pxBlock + 4] == b.size
      modifies memory
      ensures Chain(memory[..], Nodes(xStart, Insert(fs, b), region.hi))
      ensures Untouched(old(memory[..]), memory[..], Insert(fs, b), xStart)
      ensures StaysClear(old(memory[..]), memory[..], region)
    {
      hide Chain, Canonical, Roomy, Fits, AllAligned, Untouched, StaysClear, Nodes, Insert, Position;
      ghost var m := memory[..];
      var it, k := FindPlace(pxBlock, fs);
      InsertFacts(m, xStart, fs, region, b);
      MergeIn(it, pxBlock);
      MergedInserts(m, memory[..], xStart, fs, region, b);
    }

    /** The first-fit walk of `pvPortMalloc`. */
    method FindFit(want: Word) returns (prev: Word, block: Word, ghost k: nat)
      requires Configured() && 0 < want
      requires Canonical(model.free, region) && Chain(memory[..], Nodes(xStart, model.free, region.hi))
      ensures prev == Nodes(xStart, model.free, region.hi)[FirstFit(model.free, want)].addr
      ensures block == Nodes(xStart, model.free, region.hi)[FirstFit(model.free, want) + 1].addr
      ensures k == FirstFit(model.free, want)
    {
      ghost var fs, ns, m := model.free, Nodes(xStart, model.free, region.hi), memory[..];
      k := 0;
      prev := xStart;
      assert m[ns[0].addr] == ns[1].addr;
      block := memory[xStart];
      while memory[block + 4] < want && memory[block] != 0
        invariant k <= |fs| && prev == ns[k].addr && block == ns[k + 1].addr
        invariant forall i :: 0 <= i < k ==> fs[i].size < want
        decreases |fs| - k
      {
        if k < |fs| {
          assert ns[k + 1] == fs[k];
          assert m[ns[k + 1].addr] == ns[k + 2].addr;
        }
        prev := block;
        block := memory[block];
        k := k + 1;
      }
      if k < |fs| {
        assert ns[k + 1] == fs[k] && BlockIn(fs[k], region);
        assert k + 2 < |ns| && m[ns[k + 1].addr] == ns[k + 2].addr;
        assert k + 1 < |fs| ==> ns[k + 2] == fs[k + 1] && BlockIn(fs[k + 1], region);
      }
      FirstFitIs(fs, want, k);
    }

    /** Room for the header, rounded up to the alignment; it cannot wrap below the top bit. */
    method Round(n: Word) returns (want: Word)
      requires n < TOP_BIT
      ensures want == if n == 0 then 0 else Rounded(n)
    {
      want := n;
      if want > 0 {
        want := want + HEADER;
        if want % 8 != 0 {
          want := want + (8 - want % 8);
        }
      }
    }

    /** The end of `pvPortMalloc`: account for the block and hand it over. */
    method Mark(block: Word, ghost b: Block, ghost t: State)
      requires Configured() && Ready() && pxEnd == region.hi && xBlockAllocatedBit == TOP_BIT
      requires xFreeBytesRemaining == model.bytes && xMinimumEverFreeBytesRemaining == model.minEver
      requires block == b.addr && b.size < TOP_BIT && Granted(model, t, region, b)
      requires Unmarked(memory[..], xStart, region, model, t, b)
      modifies this, memory
      ensures Valid() && Ready() && model == t
      ensures LiveKept(old(memory[..]), memory[..], old(model).live)
    {
      ghost var m := memory[..];
      xFreeBytesRemaining := xFreeBytesRemaining - memory[block + 4];
      if xFreeBytesRemaining < xMinimumEverFreeBytesRemaining {
        xMinimumEverFreeBytesRemaining := xFreeBytesRemaining;
      }
      memory[block + 4] := memory[block + 4] + xBlockAllocatedBit;
      memory[block] := 0;
      MarkStep(m, memory[..], xStart, region, model, t, b);
      MarkKeepsLive(m, memory[..], region, model, t, b);
      model := t;
    }

    /** The two size words of a split block, and the insertion of the remainder. */
    method SplitOff(want: Word, block: Word, ghost whole: Block, ghost fs: seq<Block>, ghost rest: Block)
      returns (ghost written: seq<Word>)
      requires Configured() && pxEnd == region.hi
      requires block == whole.addr && block + HEADER <= memory.Length && memory[block + 4] == whole.size
      requires HEADER <= want
      requires rest == Block(whole.addr + want, whole.size - want)
      requires Insertable(xStart, fs, region, rest) && AllAligned(fs) && Aligned(rest)
      requires Chain(memory[..], Nodes(xStart, fs, region.hi)) && AroundNodes(Nodes(xStart, fs, region.hi), whole)
      modifies memory
      ensures SplitWrites(old(memory[..]), written, whole, want)
      ensures Chain(memory[..], Nodes(xStart, Insert(fs, rest), region.hi))
      ensures Untouched(written, memory[..], Insert(fs, rest), xStart) && StaysClear(written, memory[..], region)
    {
      var pxNewBlockLink: Word := block + want;
      memory[pxNewBlockLink + 4] := memory[block + 4] - want;
      memory[block + 4] := want;
      written := memory[..];
      ChainFrame(old(memory[..]), written, Nodes(xStart, fs, region.hi));
      InsertBlock(pxNewBlockLink, fs, rest);
    }

    /** The part of `pvPortMalloc` that follows a successful search. */
    method Take(want: Word, prev: Word, block: Word, ghost k: nat) returns (pvReturn: Word)
      requires Valid() && Ready() && Grantable(model, k, want)
      requires prev == Nodes(xStart, model.free, region.hi)[k].addr
      requires block == Nodes(xStart, model.free, region.hi)[k + 1].addr
      modifies this, memory
      ensures Valid() && Ready()
      ensures pvReturn == old(model).free[k].addr + HEADER
      ensures model == Grant(old(model), k, want)
      ensures LiveKept(old(memory[..]), memory[..], old(model).live)
    {
      hide LiveKept, Chain, LiveHeaders, StaleHeaders, Untouched, StaysClear, Canonical, AllAligned, Roomy;
      ghost var s, m0 := model, memory[..];
      TakeReady(m0, xStart, region, s, k, want);

      pvReturn := memory[prev] + HEADER;
      memory[prev] := memory[block];
      ghost var m1 := memory[..];
      AlignedIsRoomy(s.free, region);
      UnlinkChain(m0, m1, xStart, region, s.free, k);

      if memory[block + 4] - want > MINIMUM_BLOCK_SIZE {
        RemainderInsertable(xStart, region, s, k, want);
        ghost var rest := Block(s.free[k].addr + want, s.free[k].size - want);
        ghost var m2 := SplitOff(want, block, s.free[k], Without(s.free, k), rest);
        SplitDone(m0, m1, m2, memory[..], xStart, region, s, k, want, rest);
      } else {
        WholeDone(m0, m1, xStart, region, s, k, want);
      }
      GrantGranted(s, region, k, want);
      ghost var m3 := memory[..];
      Mark(block, Taken(s.free[k], want), Grant(s, k, want));
      KeptTwice(m0, m3, memory[..], s.live);
    }

    /** `pvPortMalloc` on a heap that has been built. */
    method Serve(xWantedSize: Word) returns (pvReturn: Word)
      requires Valid() && Ready()
      modifies this, memory
      ensures Valid() && Ready()
      ensures pvReturn == MallocPtr(old(model), xWantedSize)
      ensures model == HeapModel.Malloc(old(model), xWantedSize)
      ensures LiveKept(old(memory[..]), memory[..], old(model).live)
    {
      hide Chain, LiveHeaders, StaleHeaders, AllAligned, LiveOk, Tiles, StaleOk, LiveAt;
      ghost var s := model;
      pvReturn := 0;
      var want := xWantedSize;
      if And(want, xBlockAllocatedBit) == 0 {
        want := Round(want);
        if want > 0 && want <= xFreeBytesRemaining {
          var prev, block, k := FindFit(want);
          if block != pxEnd {
            ServedGrantable(s, xWantedSize);
            pvReturn := Take(want, prev, block, k);
          }
        }
      }
    }

    /** `pvPortMalloc`; the first call builds the heap. */
    method Malloc(xWantedSize: Word) returns (pvReturn: Word)
      requires Valid()
      modifies this, memory
      ensures Valid() && Ready()
      ensures pvReturn == MallocPtr(old(model), xWantedSize)
      ensures model == HeapModel.Malloc(old(model), xWantedSize)
      ensures xFreeBytesRemaining == model.bytes && xMinimumEverFreeBytesRemaining == model.minEver
      ensures LiveKept(old(memory[..]), memory[..], old(model).live)
    {
      hide Inv, Represents, Configured, HeapModel.Malloc, MallocPtr;
      ghost var m0 := memory[..];
      if pxEnd == 0 {
        HeapInit();
      }
      ghost var s, m1 := model, memory[..];
      pvReturn := Serve(xWantedSize);
      KeptTwice(m0, m1, memory[..], s.live);
    }

    /** `vPortFree`. A pointer may be freed again while its old header has not been handed out. */
    method Free(pv: Word)
      requires Valid()
      requires pv != 0 ==> HEADER <= pv <= memory.Length
      requires Ready() ==> pv == 0 || pv - HEADER in model.live || pv - HEADER in model.stale
      modifies this, memory
      ensures Valid() && Ready() == old(Ready())
      ensures model == if Ready() then HeapModel.Free(old(model), pv) else old(model)
      ensures Ready() ==> xFreeBytesRemaining == model.bytes && xMinimumEverFreeBytesRemaining == model.minEver
      ensures pv == 0 || !Ready() || pv - HEADER !in old(model).live ==> memory[..] == old(memory[..])
      ensures LiveKept(old(memory[..]), memory[..], model.live)
    {
      hide Chain, LiveHeaders, StaleHeaders, Untouched, StaysClear, LiveAt, Canonical, Tiles, LiveOk, StaleOk;
      if pv != 0 {
        var puc: Word := pv - HEADER;
        ghost var s, m := model, memory[..];
        if Ready() {
          FreeTests(m, xStart, region, s, puc);
        }
        if And(memory[puc + 4], xBlockAllocatedBit) != 0 {
          if memory[puc] == 0 {
            ghost var b := Block(puc, s.live[puc]);
            memory[puc + 4] := memory[puc + 4] - xBlockAllocatedBit;
            ghost var m' := memory[..];
            ReleaseHeader(m, m', xStart, region, s, puc);
            FreeInsertable(xStart, region, s, b);
            xFreeBytesRemaining := xFreeBytesRemaining + memory[puc + 4];
            InsertBlock(puc, s.free, b);
            model := HeapModel.Free(s, pv);
            FreeKeepsInv(s, region, pv);
            LiveNotFree(model, region);
            AfterInsert(m', memory[..], xStart, region, model.free, model.live, model.stale);
            FreeKeepsLive(m, m', memory[..], xStart, region, s, puc);
          }
        }
      }
    }

    /** The application writes a word of a block it owns: the allocator's state is not affected. */
    method Store(ghost h: int, a: Word, v: Word)
      requires Valid() && Ready() && h in model.live && h + HEADER <= a < h + model.live[h]
      modifies memory
      ensures Valid() && memory[..] == old(memory[..])[a := v]
    {
      assert BlockIn(Block(h, model.live[h]), region);
      ghost var m := memory[..];
      memory[a] := v;
      StoreStep(m, memory[..], xStart, region, model, h, a);
    }
  }
}
