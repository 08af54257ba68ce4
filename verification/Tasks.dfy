/** The message scheduler: messages are blocks of the heap, and queue in the intrusive list. */
module Tasks {
  import opened Machine
  import opened TaskModel
  import HM = HeapModel
  import HR = HeapRuns
  import Mem = HeapMemory
  import Heap
  import CoList

  /** A message in memory: the link of the list, the id, the length of its parameters. */
  ghost predicate Stored(m: seq<Word>, live: map<int, int>, msg: Msg) {
    && msg.ptr - HM.HEADER in live && HM.HEADER + MSG_SIZE <= live[msg.ptr - HM.HEADER]
    && 0 <= msg.paramLen < WORD_LIMIT - MSG_SIZE
    && 0 < msg.ptr && msg.ptr + MSG_SIZE <= |m|
    && m[msg.ptr + 4] == msg.id && m[msg.ptr + 8] == msg.paramLen
  }

  ghost predicate AllStored(m: seq<Word>, live: map<int, int>, ms: seq<Msg>) {
    forall x :: x in ms ==> Stored(m, live, x)
  }

  function Addresses(ms: seq<Msg>): (ps: seq<int>)
    ensures |ps| == |ms|
  {
    seq(|ms|, i requires 0 <= i < |ms| => ms[i].ptr)
  }

  /** No link of an element lies on the id or the length of a message. */
  lemma LinksApart(live: map<int, int>, r: HM.Region, p: int, q: int)
    requires HM.LiveOk(live, r) && p - HM.HEADER in live && q - HM.HEADER in live
    requires HM.HEADER + MSG_SIZE <= live[q - HM.HEADER]
    ensures p != q + 4 && p != q + 8
  {
    assert HM.Aligned(HM.Block(p - HM.HEADER, live[p - HM.HEADER]));
    assert HM.Aligned(HM.Block(q - HM.HEADER, live[q - HM.HEADER]));
  }

  /** Different messages share no word. */
  lemma MessagesApart(live: map<int, int>, r: HM.Region, p: int, q: int, j: int, k: int)
    requires HM.LiveOk(live, r) && p - HM.HEADER in live && q - HM.HEADER in live && p != q
    requires HM.HEADER + MSG_SIZE <= live[q - HM.HEADER] && HM.HEADER + MSG_SIZE <= live[p - HM.HEADER]
    requires 0 <= j < MSG_SIZE && 0 <= k < MSG_SIZE
    ensures p + j != q + k
  {
  }

  lemma WordsLive(live: map<int, int>, p: int)
    requires p - HM.HEADER in live && HM.HEADER + MSG_SIZE <= live[p - HM.HEADER]
    ensures HM.LiveAt(live, p + 4) && HM.LiveAt(live, p + 8)
  {
    var h := p - HM.HEADER;
    assert h <= p + 4 < h + live[h] && h <= p + 8 < h + live[h];
  }

  predicate SameBlock(live: map<int, int>, live': map<int, int>, p: int) {
    p - HM.HEADER in live && p - HM.HEADER in live' && live'[p - HM.HEADER] == live[p - HM.HEADER]
  }

  /** What the heap does with other blocks leaves messages alone. */
  lemma KeptStored(m: seq<Word>, m': seq<Word>, live: map<int, int>, kept: map<int, int>, live': map<int, int>,
                   ms: seq<Msg>)
    requires AllStored(m, live, ms) && Mem.LiveKept(m, m', kept)
    requires forall x :: x in ms ==> SameBlock(live, kept, x.ptr) && SameBlock(live, live', x.ptr)
    ensures AllStored(m', live', ms)
  {
    hide HM.LiveAt;
    forall x | x in ms ensures Stored(m', live', x) {
      assert Stored(m, live, x);
      WordsLive(kept, x.ptr);
    }
  }

  /** Neither do the links written by an insertion. */
  lemma LinkedStored(m: seq<Word>, m': seq<Word>, live: map<int, int>, r: HM.Region, ps: seq<int>, ms: seq<Msg>)
    requires AllStored(m, live, ms) && HM.LiveOk(live, r) && |m'| == |m|
    requires forall i :: 0 <= i < |ps| ==> ps[i] - HM.HEADER in live
    requires forall a :: 0 <= a < |m| && a !in ps ==> m'[a] == m[a]
    ensures AllStored(m', live, ms)
  {
    hide HM.LiveOk;
    forall x | x in ms ensures Stored(m', live, x) {
      assert Stored(m, live, x);
      var q := x.ptr;
      forall j | 0 <= j < |ps| ensures ps[j] != q + 4 && ps[j] != q + 8 {
        LinksApart(live, r, ps[j], q);
      }
    }
  }

  /** Nor do the fields of another message. */
  lemma OtherStored(m: seq<Word>, m': seq<Word>, live: map<int, int>, r: HM.Region, p: int, ms: seq<Msg>)
    requires AllStored(m, live, ms) && HM.LiveOk(live, r) && |m'| == |m|
    requires p - HM.HEADER in live && HM.HEADER + MSG_SIZE <= live[p - HM.HEADER]
    requires forall x :: x in ms ==> x.ptr != p
    requires forall a :: 0 <= a < |m| && a != p + 4 && a != p + 8 ==> m'[a] == m[a]
    ensures AllStored(m', live, ms)
  {
    hide HM.LiveOk;
    forall x | x in ms ensures Stored(m', live, x) {
      assert Stored(m, live, x);
      var q := x.ptr;
      MessagesApart(live, r, p, q, 4, 4);
      MessagesApart(live, r, p, q, 4, 8);
      MessagesApart(live, r, p, q, 8, 4);
      MessagesApart(live, r, p, q, 8, 8);
    }
  }

  /** The words that a write of one field leaves alone. */
  lemma FieldsWritten(m: seq<Word>, m': seq<Word>, m'': seq<Word>, p: int, id: Word, size: Word)
    requires 0 < p && p + MSG_SIZE <= |m| && m' == m[p + 4 := id] && m'' == m'[p + 8 := size]
    ensures m''[p + 4] == id && m''[p + 8] == size
    ensures forall a :: 0 <= a < |m| && a != p + 4 && a != p + 8 ==> m''[a] == m[a]
  {
  }

  /** A list is not affected by the fields of a message. */
  lemma FieldsLinked(m: seq<Word>, m': seq<Word>, live: map<int, int>, r: HM.Region, p: int, ps: seq<int>)
    requires CoList.Linked(m, ps) && HM.LiveOk(live, r) && |m'| == |m|
    requires p - HM.HEADER in live && HM.HEADER + MSG_SIZE <= live[p - HM.HEADER]
    requires forall i :: 0 <= i < |ps| ==> ps[i] - HM.HEADER in live
    requires forall a :: 0 <= a < |m| && a != p + 4 && a != p + 8 ==> m'[a] == m[a]
    ensures CoList.Linked(m', ps)
  {
    hide HM.LiveOk;
    forall i | 0 <= i < |ps| ensures m'[ps[i]] == m[ps[i]] {
      LinksApart(live, r, ps[i], p);
    }
  }

  class Scheduler {
    const list: CoList.List            // task_list
    const heap: Heap.Allocator
    var hand: Option<Msg>              // the message between task_msg_get and vPortFree

    ghost var held: seq<Msg>           // allocated by their senders, not inserted yet
    ghost var queue: seq<Msg>
    ghost var others: set<int>
    ghost var posted: seq<Msg>
    ghost var handled: seq<Msg>

    ghost function Model(): System
      reads this, heap
    {
      System(heap.model, held, queue, hand, others, posted, handled)
    }

    /** The list holds the queue, and the queued and held messages are in memory. */
    ghost predicate InMemory()
      reads this, list, heap, heap.memory
    {
      && list.heap == heap && list.Valid() && list.nodes == Addresses(queue)
      && AllStored(heap.memory[..], heap.model.live, queue + held)
    }

    ghost predicate Valid()
      reads this, list, heap, heap.memory
    {
      InMemory() && Inv(Model(), heap.region)
    }

    /** `task_init`, on a heap that has not been used. */
    constructor (heap: Heap.Allocator)
      requires heap.Valid() && !heap.Ready()
      ensures Valid() && this.heap == heap && Model() == Init(heap.region) && fresh(list)
    {
      this.heap := heap;
      list := new CoList.List(heap);
      hand, held, queue, others, posted, handled := None, [], [], {}, [], [];
      new;
      HM.InitInv(heap.region);
    }

    /** The fields of a new message. */
    method SetFields(msg: Word, id: Word, size: Word)
      requires list.heap == heap && list.Valid() && AllStored(heap.memory[..], heap.model.live, queue + held)
      requires msg - HM.HEADER in heap.model.live && HM.HEADER + MSG_SIZE <= heap.model.live[msg - HM.HEADER]
      requires forall x :: x in queue + held ==> x.ptr != msg
      requires size < WORD_LIMIT - MSG_SIZE
      modifies heap.memory
      ensures list.Valid() && AllStored(heap.memory[..], heap.model.live, queue + held)
      ensures Stored(heap.memory[..], heap.model.live, Msg(msg, id, size))
    {
      hide Heap.Allocator.Valid, CoList.Linked, AllStored, HM.LiveOk;
      ghost var m := heap.memory[..];
      MessageRoom(heap, msg);
      heap.Store(msg - HM.HEADER, msg + 4, id);
      ghost var m' := heap.memory[..];
      heap.Store(msg - HM.HEADER, msg + 8, size);
      FieldsWritten(m, m', heap.memory[..], msg, id, size);
      FieldsLinked(m, heap.memory[..], heap.model.live, heap.region, msg, list.nodes);
      OtherStored(m, heap.memory[..], heap.model.live, heap.region, msg, queue + held);
    }

    /** `task_msg_alloc`. Until it is inserted the message is its sender's. */
    method Alloc(id: Word, size: Word) returns (msg: Word)
      requires Valid() && Legal(Model(), TaskModel.Alloc(id, size)) && MSG_SIZE + size < WORD_LIMIT
      modifies this`held, heap, heap.memory
      ensures Valid() && Model() == Step(old(Model()), TaskModel.Alloc(id, size))
      ensures held == old(held) + [Msg(msg, id, size)]
      ensures heap.model == HM.Malloc(old(heap.model), 12 + size) && msg == HM.MallocPtr(old(heap.model), 12 + size)
      ensures msg - 8 in heap.model.live && 8 + 12 + size <= heap.model.live[msg - 8]
    {
      hide HM.Inv, Owned, Heap.Allocator.Valid, HM.Malloc, HM.MallocPtr, AllStored, CoList.Linked, CoList.Elements,
        Mem.LiveKept, HM.LiveOk;
      ghost var s, m := Model(), heap.memory[..];
      AllocKeepsInv(s, heap.region, id, size);
      msg := heap.Malloc(MSG_SIZE + size);
      AfterMalloc(s, heap.region, m, heap.memory[..], MSG_SIZE + size);
      SetFields(msg, id, size);
      held := held + [Msg(msg, id, size)];
      OneMoreStored(heap.memory[..], heap.model.live, queue + s.held, Msg(msg, id, size));
      assert queue + held == queue + s.held + [Msg(msg, id, size)];
      assert held[|held| - 1] in Messages(Model());
    }

    /** `task_msg_insert`, of the `k`th message held. */
    method Insert(msg: Word, ghost k: nat)
      requires Valid() && k < |held| && held[k].ptr == msg
      modifies this`held, this`queue, this`posted, list, heap.memory
      ensures Valid() && Model() == Step(old(Model()), TaskModel.Insert(k))
    {
      hide HM.Inv, Owned, Heap.Allocator.Valid, AllStored, CoList.Linked;
      ghost var s, m := Model(), heap.memory[..];
      InsertKeepsInv(s, heap.region, k);
      InUseLive(s);
      assert held[k] in held;
      list.PushBack(msg);
      AfterPush(s, heap.region, m, heap.memory[..], k);
      queue, held, posted := queue + [held[k]], Without(held, k), posted + [held[k]];
    }

    /** `task_msg_get` and `task_get_handler`, up to the call of the handler. */
    method Begin<F>(table: seq<Entry<F>>) returns (func: Option<F>)
      requires Valid() && hand.None?
      modifies this`hand, this`queue, this`handled, list
      ensures Valid() && Model() == Step(old(Model()), Get)
      ensures func == if hand.None? then None
                      else if Lookup(table, hand.value.id) < |table|
                      then Some(table[Lookup(table, hand.value.id)].func) else None
    {
      hide HM.Inv, Owned, Heap.Allocator.Valid, CoList.Linked;
      GetKeepsInv(Model(), heap.region);
      func := None;
      var msg := list.PopFront();
      if msg != 0 {
        assert queue[0] in queue + held;
        assert Stored(heap.memory[..], heap.model.live, queue[0]);
        hand := Some(Msg(msg, heap.memory[msg + 4], heap.memory[msg + 8]));
        handled, queue := handled + [queue[0]], queue[1..];
        func := GetHandler(table, hand.value.id);
      }
    }

    /** `vPortFree` of the message once its handler has returned. */
    method End()
      requires Valid() && hand.Some?
      modifies this`hand, heap, heap.memory
      ensures Valid() && Model() == Step(old(Model()), Finish)
    {
      hide HM.Inv, Owned, Heap.Allocator.Valid, HM.Free, AllStored, CoList.Linked, CoList.Elements, Mem.LiveKept,
        HM.LiveOk;
      ghost var s, m := Model(), heap.memory[..];
      FinishKeepsInv(s, heap.region);
      FreeReady(heap, hand.value.ptr);
      heap.Free(hand.value.ptr);
      AfterFree(s, heap.region, m, heap.memory[..]);
      hand := None;
    }
  }

  lemma AddressesIn(ms: seq<Msg>, others: seq<Msg>, live: map<int, int>)
    requires forall x :: x in ms + others ==> x.ptr - HM.HEADER in live
    ensures forall i :: 0 <= i < |Addresses(ms)| ==> Addresses(ms)[i] - HM.HEADER in live
  {
    forall i | 0 <= i < |ms| ensures Addresses(ms)[i] - HM.HEADER in live {
      assert ms[i] in ms + others;
    }
  }

  lemma OneMoreStored(m: seq<Word>, live: map<int, int>, ms: seq<Msg>, x: Msg)
    requires AllStored(m, live, ms) && Stored(m, live, x)
    ensures AllStored(m, live, ms + [x])
  {
  }

  /** List and messages after an allocation, and the block it gives. */
  lemma AfterMalloc(s: System, r: HM.Region, m: seq<Word>, m': seq<Word>, n: int)
    requires Inv(s, r) && MSG_SIZE <= n && HM.MallocPtr(s.heap, n) != 0
    requires CoList.Elements(s.heap.live, Addresses(s.queue)) && CoList.Linked(m, Addresses(s.queue))
    requires AllStored(m, s.heap.live, s.queue + s.held) && Mem.LiveKept(m, m', s.heap.live)
    ensures var live, p := HM.Malloc(s.heap, n).live, HM.MallocPtr(s.heap, n);
            && CoList.Elements(live, Addresses(s.queue)) && CoList.Linked(m', Addresses(s.queue))
            && AllStored(m', live, s.queue + s.held)
            && p - HM.HEADER in live && HM.HEADER + MSG_SIZE <= live[p - HM.HEADER]
            && forall x :: x in s.queue + s.held ==> x.ptr != p
  {
    hide HM.Inv, Owned, AllStored, CoList.Linked, Mem.LiveKept, HM.LiveOk, HM.Malloc, HM.MallocPtr;
    var p, t := HM.MallocPtr(s.heap, n), HM.Malloc(s.heap, n);
    Allocated(s.heap, r, n);
    HR.MallocLive(s.heap, n);
    HR.MallocGives(s.heap, r, n, p - HM.HEADER, t.live[p - HM.HEADER]);
    InUseLive(s);
    InvLiveOk(s.heap, r);
    CoList.KeptLinked(m, m', s.heap.live, r, Addresses(s.queue));
    KeptStored(m, m', s.heap.live, s.heap.live, t.live, s.queue + s.held);
  }

  lemma InvLiveOk(h: HM.State, r: HM.Region)
    requires HM.Inv(h, r)
    ensures HM.LiveOk(h.live, r)
  {
  }

  /** List and messages after the free of the message in hand. */
  lemma AfterFree(s: System, r: HM.Region, m: seq<Word>, m': seq<Word>)
    requires Inv(s, r) && s.hand.Some?
    requires CoList.Elements(s.heap.live, Addresses(s.queue)) && CoList.Linked(m, Addresses(s.queue))
    requires AllStored(m, s.heap.live, s.queue + s.held)
    requires Mem.LiveKept(m, m', HM.Free(s.heap, s.hand.value.ptr).live)
    ensures var live := HM.Free(s.heap, s.hand.value.ptr).live;
            && CoList.Elements(live, Addresses(s.queue)) && CoList.Linked(m', Addresses(s.queue))
            && AllStored(m', live, s.queue + s.held)
  {
    hide HM.Inv, Owned, AllStored, CoList.Linked, Mem.LiveKept, HM.LiveOk;
    var p := s.hand.value.ptr;
    var t := HM.Free(s.heap, p);
    FinishKeepsInv(s, r);
    InUseLive(s);
    InvLiveOk(t, r);
    AddressesIn(s.queue, s.held, t.live);
    CoList.KeptLinked(m, m', t.live, r, Addresses(s.queue));
    KeptStored(m, m', s.heap.live, t.live, t.live, s.queue + s.held);
  }

  /** Messages after the insertion of one of them. */
  lemma AfterPush(s: System, r: HM.Region, m: seq<Word>, m': seq<Word>, k: nat)
    requires Inv(s, r) && k < |s.held| && AllStored(m, s.heap.live, s.queue + s.held) && |m'| == |m|
    requires forall a :: 0 <= a < |m| && a != s.held[k].ptr && a !in Addresses(s.queue) ==> m'[a] == m[a]
    ensures AllStored(m', s.heap.live, (s.queue + [s.held[k]]) + Without(s.held, k))
    ensures Addresses(s.queue + [s.held[k]]) == Addresses(s.queue) + [s.held[k].ptr]
  {
    hide HM.Inv, Owned, HM.LiveOk;
    var ps := Addresses(s.queue) + [s.held[k].ptr];
    InUseLive(s);
    InvLiveOk(s.heap, r);
    assert s.held[k] in s.held;
    AddressesIn(s.queue, s.held, s.heap.live);
    LinkedStored(m, m', s.heap.live, r, ps, s.queue + s.held);
  }

  lemma MessageRoom(heap: Heap.Allocator, p: Word)
    requires heap.Valid() && p - HM.HEADER in heap.model.live
    requires HM.HEADER + MSG_SIZE <= heap.model.live[p - HM.HEADER]
    ensures heap.Ready() && HM.LiveOk(heap.model.live, heap.region)
    ensures 0 < p && p + MSG_SIZE <= heap.memory.Length && p + MSG_SIZE < WORD_LIMIT
  {
    HM.InitInv(heap.region);
    assert HM.BlockIn(HM.Block(p - HM.HEADER, heap.model.live[p - HM.HEADER]), heap.region);
  }

  /** A pointer whose block is live is one that `vPortFree` may be given. */
  lemma FreeReady(heap: Heap.Allocator, p: int)
    requires heap.Valid() && p - HM.HEADER in heap.model.live
    ensures heap.Ready() && 0 < p <= heap.memory.Length && HM.HEADER <= p < WORD_LIMIT
  {
    HM.InitInv(heap.region);
    assert HM.BlockIn(HM.Block(p - HM.HEADER, heap.model.live[p - HM.HEADER]), heap.region);
  }
}
