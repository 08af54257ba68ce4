/** The intrusive singly linked list: a head, a tail, and the links in the elements, which are blocks
    of the heap. The link is the first word of an element. */
module CoList {
  import opened Machine
  import HM = HeapModel
  import Mem = HeapMemory
  import Heap

  /** The link of the `i`th of the elements `ns`. */
  function Link(ns: seq<int>, i: nat): int
    requires i < |ns|
  {
    if i + 1 < |ns| then ns[i + 1] else 0
  }

  ghost predicate Linked(m: seq<Word>, ns: seq<int>) {
    forall i :: 0 <= i < |ns| ==> 0 < ns[i] < |m| && m[ns[i]] == Link(ns, i)
  }

  /** The elements are blocks in use, each once in the list. */
  ghost predicate Elements(live: map<int, int>, ns: seq<int>) {
    && (forall i :: 0 <= i < |ns| ==> ns[i] - HM.HEADER in live)
    && (forall i, j :: 0 <= i < j < |ns| ==> ns[i] != ns[j])
  }

  lemma PushLinked(m: seq<Word>, m': seq<Word>, ns: seq<int>, p: int)
    requires Linked(m, ns) && p !in ns && |m'| == |m| && 0 < p < |m| && m'[p] == 0
    requires ns != [] ==> m'[ns[|ns| - 1]] == p
    requires forall a :: 0 <= a < |m| && a != p && (ns == [] || a != ns[|ns| - 1]) ==> m'[a] == m[a]
    requires forall i, j :: 0 <= i < j < |ns| ==> ns[i] != ns[j]
    ensures Linked(m', ns + [p])
  {
    var ps := ns + [p];
    forall i | 0 <= i < |ps| ensures 0 < ps[i] < |m'| && m'[ps[i]] == Link(ps, i) {
      if i < |ns| - 1 {
        assert ps[i] == ns[i] && Link(ps, i) == Link(ns, i) && ns[i] != ns[|ns| - 1];
      }
    }
  }

  lemma PopLinked(m: seq<Word>, ns: seq<int>)
    requires Linked(m, ns) && ns != []
    ensures Linked(m, ns[1..]) && (|ns| > 1 ==> ns[1] != 0)
  {
    forall i | 0 <= i < |ns[1..]| ensures 0 < ns[1..][i] < |m| && m[ns[1..][i]] == Link(ns[1..], i) {
      assert Link(ns, i + 1) == Link(ns[1..], i);
    }
  }

  lemma LinkAt(m: seq<Word>, ns: seq<int>, i: nat)
    requires Linked(m, ns) && i < |ns|
    ensures 0 < ns[i] < |m| && m[ns[i]] == if i + 1 < |ns| then ns[i + 1] else 0
  {
  }

  /** A block in use has a payload of eight bytes at least. */
  lemma ElementRoom(live: map<int, int>, r: HM.Region, p: int)
    requires HM.LiveOk(live, r) && p - HM.HEADER in live
    ensures HM.HEADER <= live[p - HM.HEADER] - HM.HEADER && r.lo <= p - HM.HEADER && p < r.hi
    ensures HM.LiveAt(live, p)
  {
    var h := p - HM.HEADER;
    assert HM.BlockIn(HM.Block(h, live[h]), r);
    assert h <= p < h + live[h];
  }

  /** What the heap does with other blocks leaves a list alone. */
  lemma KeptLinked(m: seq<Word>, m': seq<Word>, live: map<int, int>, r: HM.Region, ns: seq<int>)
    requires HM.LiveOk(live, r) && Elements(live, ns) && Linked(m, ns) && Mem.LiveKept(m, m', live)
    ensures Linked(m', ns)
  {
    hide HM.LiveOk, HM.LiveAt;
    forall i | 0 <= i < |ns| ensures m'[ns[i]] == m[ns[i]] {
      ElementRoom(live, r, ns[i]);
    }
  }

  class List {
    const heap: Heap.Allocator
    var first: Word
    var last: Word
    ghost var nodes: seq<int>

    ghost predicate Shaped()
      reads this
    {
      && (nodes == [] ==> first == 0 && last == 0)
      && (nodes != [] ==> first == nodes[0] && last == nodes[|nodes| - 1])
    }

    ghost predicate Valid()
      reads this, heap, heap.memory
    {
      && heap.Valid() && Shaped()
      && Elements(heap.model.live, nodes) && Linked(heap.memory[..], nodes)
    }

    /** `co_list_init`. */
    constructor (heap: Heap.Allocator)
      requires heap.Valid()
      ensures Valid() && nodes == [] && this.heap == heap
    {
      this.heap := heap;
      first, last, nodes := 0, 0, [];
    }

    /** `co_list_push_back`. */
    method PushBack(hdr: Word)
      requires Valid() && hdr - HM.HEADER in heap.model.live && hdr !in nodes
      modifies this, heap.memory
      ensures Valid() && nodes == old(nodes) + [hdr]
      ensures forall a :: 0 <= a < heap.memory.Length && a != hdr && a !in old(nodes) ==>
                heap.memory[a] == old(heap.memory[a])
    {
      hide Heap.Allocator.Valid, Linked;
      ghost var m := heap.memory[..];
      Allocated(heap, hdr);
      if first == 0 {
        NotNull(m, nodes);
        first := hdr;
      } else {
        Allocated(heap, last);
        heap.Store(last - HM.HEADER, last, hdr);
      }
      last := hdr;
      heap.Store(hdr - HM.HEADER, hdr, 0);
      PushLinked(m, heap.memory[..], nodes, hdr);
      nodes := nodes + [hdr];
    }

    /** `co_list_pop_front`; NULL when the list is empty. */
    method PopFront() returns (element: Word)
      requires Valid()
      modifies this
      ensures Valid() && element == old(first)
      ensures element == 0 <==> old(nodes) == []
      ensures if element == 0 then nodes == [] else element == old(nodes)[0] && nodes == old(nodes)[1..]
    {
      hide Heap.Allocator.Valid, Linked;
      element := first;
      if nodes != [] {
        PopLinked(heap.memory[..], nodes);
        LinkAt(heap.memory[..], nodes, 0);
      }
      if element != 0 {
        first := heap.memory[first];
        if first == 0 {
          last := first;
        }
        nodes := nodes[1..];
      }
    }

    /** `co_list_size`: the count is 16 bits wide. */
    method Size() returns (count: int)
      requires Valid()
      ensures count == |nodes| % 0x1_0000
    {
      hide Heap.Allocator.Valid, Linked, Elements;
      count := 0;
      var tmp := first;
      NotNull(heap.memory[..], nodes);
      ghost var i: nat := 0;
      while tmp != 0
        invariant 0 <= i <= |nodes| && count == i % 0x1_0000
        invariant tmp == if i < |nodes| then nodes[i] else 0
        decreases |nodes| - i
      {
        LinkAt(heap.memory[..], nodes, i);
        tmp := heap.memory[tmp];
        count := (count + 1) % 0x1_0000;
        i := i + 1;
      }
    }
  }

  lemma NotNull(m: seq<Word>, ns: seq<int>)
    requires Linked(m, ns)
    ensures forall i :: 0 <= i < |ns| ==> ns[i] != 0
  {
  }

  lemma Allocated(heap: Heap.Allocator, p: Word)
    requires heap.Valid() && p - HM.HEADER in heap.model.live
    ensures heap.Ready() && 0 < p < heap.memory.Length && HM.HEADER <= heap.model.live[p - HM.HEADER] - HM.HEADER
  {
    HM.InitInv(heap.region);
    ElementRoom(heap.model.live, heap.region, p);
  }
}
