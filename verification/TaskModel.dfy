/** Task messages over the heap: who owns which block, and in what order messages are handled. */
module TaskModel {
  import opened Machine
  import HM = HeapModel
  import HR = HeapRuns

  const MSG_SIZE: int := 12
  const TASK_ID_DEFAULT: int := 0xffff_ffff

  datatype Msg = Msg(ptr: int, id: int, paramLen: int)

  /** `held` are the messages that their senders have allocated and not inserted yet, `others` the
      pointers that other users of the heap hold. `posted` and `handled` record the history; nothing
      reads them. */
  datatype System = System(heap: HM.State, held: seq<Msg>, queue: seq<Msg>, hand: Option<Msg>, others: set<int>,
                           posted: seq<Msg>, handled: seq<Msg>)

  datatype Event =
    | Alloc(id: int, size: int)    // task_msg_alloc
    | Insert(k: nat)               // task_msg_insert of the kth message held
    | Get                          // task_msg_get in the scheduling loop
    | Finish                       // vPortFree after the handler
    | OtherAlloc(n: int)
    | OtherFree(p: int)

  /** Allocations in the callers succeed; nobody frees or inserts what is not theirs. */
  predicate Legal(s: System, e: Event) {
    match e
    case Alloc(id, size) => HM.MallocPtr(s.heap, Wrap(MSG_SIZE + size)) != 0
    case Insert(k) => k < |s.held|
    case Get => s.hand.None?
    case Finish => s.hand.Some?
    case OtherAlloc(n) => HM.MallocPtr(s.heap, n) != 0
    case OtherFree(p) => p in s.others
  }

  function Without(ms: seq<Msg>, k: nat): seq<Msg>
    requires k < |ms|
  {
    ms[..k] + ms[k + 1..]
  }

  function Step(s: System, e: Event): System
    requires Legal(s, e)
  {
    match e
    case Alloc(id, size) =>
      var n := Wrap(MSG_SIZE + size);
      s.(heap := HM.Malloc(s.heap, n), held := s.held + [Msg(HM.MallocPtr(s.heap, n), id, size)])
    case Insert(k) =>
      s.(held := Without(s.held, k), queue := s.queue + [s.held[k]], posted := s.posted + [s.held[k]])
    case Get =>
      if s.queue == [] then s
      else s.(queue := s.queue[1..], hand := Some(s.queue[0]), handled := s.handled + [s.queue[0]])
    case Finish => s.(heap := HM.Free(s.heap, s.hand.value.ptr), hand := None)
    case OtherAlloc(n) =>
      s.(heap := HM.Malloc(s.heap, n), others := s.others + {HM.MallocPtr(s.heap, n)})
    case OtherFree(p) => s.(heap := HM.Free(s.heap, p), others := s.others - {p})
  }

  function Pointers(ms: seq<Msg>): multiset<int> {
    if ms == [] then multiset{} else multiset{ms[0].ptr} + Pointers(ms[1..])
  }

  /** Every pointer somebody holds: the scheduler's message in hand, the queue, the senders, the others. */
  function Held(s: System): multiset<int> {
    (if s.hand.Some? then multiset{s.hand.value.ptr} else multiset{})
    + Pointers(s.queue) + Pointers(s.held) + multiset(s.others)
  }

  /** Every live block is held by exactly one of them, and nothing else is held. */
  ghost predicate Owned(s: System) {
    forall p :: Held(s)[p] == if p - HM.HEADER in s.heap.live then 1 else 0
  }

  /** Messages are handled in the order in which they were inserted. */
  predicate InOrder(s: System) {
    s.posted == s.handled + s.queue
  }

  /** A message's block has room for its header, the twelve bytes of the message and its parameters,
      unless the sum of the last two has wrapped. */
  predicate Roomy(live: map<int, int>, x: Msg) {
    x.ptr - 8 in live && (0 <= x.paramLen < WORD_LIMIT - 12 ==> 8 + 12 + x.paramLen <= live[x.ptr - 8])
  }

  /** The messages in existence: in hand, queued, or held by their senders. */
  function Messages(s: System): seq<Msg> {
    (if s.hand.Some? then [s.hand.value] else []) + s.queue + s.held
  }

  ghost predicate AllRoomy(s: System) {
    forall x :: x in Messages(s) ==> Roomy(s.heap.live, x)
  }

  ghost predicate Inv(s: System, r: HM.Region) {
    HM.Inv(s.heap, r) && Owned(s) && InOrder(s) && AllRoomy(s)
  }

  function Init(r: HM.Region): System {
    System(HM.InitState(r), [], [], None, {}, [], [])
  }

  lemma {:induction false} PointersAppend(ms: seq<Msg>, m: Msg)
    ensures Pointers(ms + [m]) == Pointers(ms) + multiset{m.ptr}
  {
    if ms == [] {
      assert [m][1..] == [];
    } else {
      assert (ms + [m])[1..] == ms[1..] + [m];
      PointersAppend(ms[1..], m);
    }
  }

  lemma {:induction false} PointersWithout(ms: seq<Msg>, k: nat)
    requires k < |ms|
    ensures Pointers(ms) == Pointers(Without(ms, k)) + multiset{ms[k].ptr}
    decreases k
  {
    if k == 0 {
      assert Without(ms, 0) == ms[1..];
    } else {
      assert Without(ms, k)[1..] == Without(ms[1..], k - 1);
      PointersWithout(ms[1..], k - 1);
    }
  }

  /** What an allocation adds to the live blocks: one header, of no block in use. */
  lemma Allocated(h: HM.State, r: HM.Region, n: int)
    requires HM.Inv(h, r) && HM.MallocPtr(h, n) != 0
    ensures var p := HM.MallocPtr(h, n) - HM.HEADER;
            p !in h.live && forall a :: a in HM.Malloc(h, n).live <==> a in h.live || a == p
    ensures var live, p := HM.Malloc(h, n).live, HM.MallocPtr(h, n) - HM.HEADER;
            n + 8 <= live[p] && forall a :: a in h.live ==> live[a] == h.live[a]
    ensures HM.Inv(HM.Malloc(h, n), r)
  {
    hide HM.Inv, HM.Malloc, HM.MallocPtr, HM.Rounded;
    HM.MallocKeepsInv(h, r, n);
    HR.MallocLive(h, n);
    var p := HM.MallocPtr(h, n) - HM.HEADER;
    HR.MallocPrivate(h, r, n, p, HM.Malloc(h, n).live[p]);
    HR.MallocGives(h, r, n, p, HM.Malloc(h, n).live[p]);
  }

  lemma {:induction false} PointersHas(ms: seq<Msg>, i: nat)
    requires i < |ms|
    ensures ms[i].ptr in Pointers(ms)
    decreases i
  {
    if i > 0 {
      PointersHas(ms[1..], i - 1);
    }
  }

  lemma HeldLive(s: System, p: int)
    requires Owned(s) && p in Held(s)
    ensures p - HM.HEADER in s.heap.live && Held(s)[p] == 1
  {
  }

  lemma HasPointers(ms: seq<Msg>, x: Msg)
    requires x in ms
    ensures x.ptr in Pointers(ms)
  {
    var i :| 0 <= i < |ms| && ms[i] == x;
    PointersHas(ms, i);
  }

  /** What is queued or held is live; no message is both, and none is the one in hand. */
  lemma InUseLive(s: System)
    requires Owned(s)
    ensures forall x :: x in s.queue + s.held ==> x.ptr - HM.HEADER in s.heap.live
    ensures forall x, y :: x in s.queue && y in s.held ==> x.ptr != y.ptr
    ensures s.hand.Some? ==> forall x :: x in s.queue + s.held ==> x.ptr != s.hand.value.ptr
  {
    hide Owned, Pointers;
    forall x | x in s.queue + s.held
      ensures x.ptr - HM.HEADER in s.heap.live && (s.hand.Some? ==> x.ptr != s.hand.value.ptr)
    {
      HasPointers(if x in s.queue then s.queue else s.held, x);
      HeldLive(s, x.ptr);
    }
    forall x, y | x in s.queue && y in s.held ensures x.ptr != y.ptr {
      HasPointers(s.queue, x);
      HasPointers(s.held, y);
      HeldLive(s, x.ptr);
    }
  }

  lemma Gains(s: System, t: System, p: int)
    requires Owned(s) && Held(t) == Held(s) + multiset{p} && p - HM.HEADER !in s.heap.live
    requires forall a :: a in t.heap.live <==> a in s.heap.live || a == p - HM.HEADER
    ensures Owned(t)
  {
    hide Held;
    forall q ensures Held(t)[q] == if q - HM.HEADER in t.heap.live then 1 else 0 {
      assert Held(s)[q] == if q - HM.HEADER in s.heap.live then 1 else 0;
    }
  }

  lemma Loses(s: System, t: System, p: int)
    requires Owned(s) && Held(s) == Held(t) + multiset{p}
    requires forall a :: a in t.heap.live <==> a in s.heap.live && a != p - HM.HEADER
    ensures Owned(t)
  {
    hide Held;
    forall q ensures Held(t)[q] == if q - HM.HEADER in t.heap.live then 1 else 0 {
      assert Held(s)[q] == if q - HM.HEADER in s.heap.live then 1 else 0;
    }
  }

  /** No message is one of the others' blocks. */
  lemma OthersApart(s: System, p: int)
    requires Owned(s) && p in s.others
    ensures forall x :: x in Messages(s) ==> x.ptr != p
  {
    hide Owned, Pointers;
    HeldLive(s, p);
    forall x | x in Messages(s) ensures x.ptr != p {
      if x in s.queue {
        HasPointers(s.queue, x);
      } else if x in s.held {
        HasPointers(s.held, x);
      }
    }
  }

  lemma NotHeld(s: System, p: int)
    requires Owned(s) && p - HM.HEADER !in s.heap.live
    ensures p !in s.others
  {
    assert Held(s)[p] == 0;
  }

  lemma HeldStays(s: System, t: System)
    requires AllRoomy(s) && forall x :: x in Messages(t) ==> x in Messages(s) || Roomy(t.heap.live, x)
    requires forall x :: x in Messages(s) && x in Messages(t) ==>
               x.ptr - 8 in t.heap.live && t.heap.live[x.ptr - 8] == s.heap.live[x.ptr - 8]
    ensures AllRoomy(t)
  {
  }

  /** A new message owns a block that nobody held, and the block has room for it. */
  lemma AllocKeepsInv(s: System, r: HM.Region, id: int, size: int)
    requires Inv(s, r) && Legal(s, Alloc(id, size))
    ensures Inv(Step(s, Alloc(id, size)), r)
  {
    hide HM.Inv, HM.Malloc, HM.MallocPtr, Wrap, Owned, Pointers;
    NoWrap(size);
    var n := Wrap(MSG_SIZE + size);
    Allocated(s.heap, r, n);
    PointersAppend(s.held, Msg(HM.MallocPtr(s.heap, n), id, size));
    Gains(s, Step(s, Alloc(id, size)), HM.MallocPtr(s.heap, n));
    HeldStays(s, Step(s, Alloc(id, size)));
  }

  lemma NoWrap(size: int)
    ensures 0 <= size < WORD_LIMIT - 12 ==> Wrap(MSG_SIZE + size) == 12 + size
  {
  }

  /** What is allocated for a message is its twelve bytes and its parameters, no less and no more. */
  lemma AllocExact(s: System, id: int, size: int)
    requires Legal(s, Alloc(id, size)) && 0 <= size < WORD_LIMIT - 12
    ensures var t, p := Step(s, Alloc(id, size)), HM.MallocPtr(s.heap, 12 + size);
            t.heap == HM.Malloc(s.heap, 12 + size) && t.held == s.held + [Msg(p, id, size)] && t.queue == s.queue
  {
    hide HM.Malloc, HM.MallocPtr, Wrap;
    NoWrap(size);
  }

  lemma InsertKeepsInv(s: System, r: HM.Region, k: nat)
    requires Inv(s, r) && k < |s.held|
    ensures Inv(Step(s, Insert(k)), r)
  {
    hide HM.Inv, Owned, Pointers;
    PointersWithout(s.held, k);
    PointersAppend(s.queue, s.held[k]);
    SameHeld(s, Step(s, Insert(k)));
    HeldStays(s, Step(s, Insert(k)));
  }

  lemma SameHeld(s: System, t: System)
    requires Owned(s) && t.heap == s.heap && Held(t) == Held(s)
    ensures Owned(t)
  {
  }

  lemma GetKeepsInv(s: System, r: HM.Region)
    requires Inv(s, r) && s.hand.None?
    ensures Inv(Step(s, Get), r)
  {
    hide HM.Inv, Owned;
    if s.queue != [] {
      SameHeld(s, Step(s, Get));
      HeldStays(s, Step(s, Get));
    }
  }

  /** What is freed is live, so nothing is freed twice. */
  lemma FinishKeepsInv(s: System, r: HM.Region)
    requires Inv(s, r) && s.hand.Some?
    ensures s.hand.value.ptr - HM.HEADER in s.heap.live
    ensures Inv(Step(s, Finish), r)
  {
    hide HM.Inv, HM.Free, Owned, Pointers;
    var p := s.hand.value.ptr;
    HeldLive(s, p);
    PointerNotNull(s.heap, r, p);
    HM.FreeKeepsInv(s.heap, r, p);
    Loses(s, Step(s, Finish), p);
    InUseLive(s);
    HeldStays(s, Step(s, Finish));
  }

  lemma PointerNotNull(h: HM.State, r: HM.Region, p: int)
    requires HM.Inv(h, r) && p - HM.HEADER in h.live
    ensures p != 0 && forall a :: a in HM.Free(h, p).live <==> a in h.live && a != p - HM.HEADER
    ensures forall a :: a in HM.Free(h, p).live ==> HM.Free(h, p).live[a] == h.live[a]
  {
    assert HM.BlockIn(HM.Block(p - HM.HEADER, h.live[p - HM.HEADER]), r);
  }

  lemma OtherKeepsInv(s: System, r: HM.Region, e: Event)
    requires Inv(s, r) && Legal(s, e) && (e.OtherAlloc? || e.OtherFree?)
    ensures Inv(Step(s, e), r)
  {
    hide HM.Inv, HM.Malloc, HM.Free, HM.MallocPtr, Owned, Pointers;
    if e.OtherAlloc? {
      Allocated(s.heap, r, e.n);
      NotHeld(s, HM.MallocPtr(s.heap, e.n));
      Gains(s, Step(s, e), HM.MallocPtr(s.heap, e.n));
      HeldStays(s, Step(s, e));
    } else {
      assert Held(s) == Held(Step(s, e)) + multiset{e.p};
      HeldLive(s, e.p);
      PointerNotNull(s.heap, r, e.p);
      HM.FreeKeepsInv(s.heap, r, e.p);
      Loses(s, Step(s, e), e.p);
      OthersApart(s, e.p);
      HeldStays(s, Step(s, e));
    }
  }

  lemma StepKeepsInv(s: System, r: HM.Region, e: Event)
    requires Inv(s, r) && Legal(s, e)
    ensures Inv(Step(s, e), r)
  {
    match e
    case Alloc(id, size) => AllocKeepsInv(s, r, id, size);
    case Insert(k) => InsertKeepsInv(s, r, k);
    case Get => GetKeepsInv(s, r);
    case Finish => FinishKeepsInv(s, r);
    case OtherAlloc(n) => OtherKeepsInv(s, r, e);
    case OtherFree(p) => OtherKeepsInv(s, r, e);
  }

  predicate LegalRun(s: System, es: seq<Event>)
    decreases |es|
  {
    es != [] ==> Legal(s, es[0]) && LegalRun(Step(s, es[0]), es[1..])
  }

  function Run(s: System, es: seq<Event>): System
    requires LegalRun(s, es)
    decreases |es|
  {
    if es == [] then s else Run(Step(s, es[0]), es[1..])
  }

  /** In every run: handled in order, and every live block has exactly one owner. In particular each
      message is freed once, while it is live, and never again. */
  lemma {:induction false} RunKeepsInv(s: System, r: HM.Region, es: seq<Event>)
    requires Inv(s, r) && LegalRun(s, es)
    ensures Inv(Run(s, es), r)
    decreases |es|
  {
    if es != [] {
      StepKeepsInv(s, r, es[0]);
      RunKeepsInv(Step(s, es[0]), r, es[1..]);
    }
  }

  /** No leak: once every message is inserted and handled and the others hold nothing, the heap is one
      block. */
  lemma QuietIsInitial(r: HM.Region, es: seq<Event>)
    requires r.Valid() && LegalRun(Init(r), es)
    requires var s := Run(Init(r), es); s.held == [] && s.queue == [] && s.hand.None? && s.others == {}
    ensures Run(Init(r), es).heap.free == HM.InitState(r).free
    ensures Run(Init(r), es).posted == Run(Init(r), es).handled
  {
    hide HM.Inv;
    HM.InitInv(r);
    RunKeepsInv(Init(r), r, es);
    var s := Run(Init(r), es);
    NothingLive(s);
    HR.NothingLiveIsInitial(s.heap, r);
    assert s.handled + [] == s.handled;
  }

  lemma NothingLive(s: System)
    requires Owned(s) && s.held == [] && s.queue == [] && s.hand.None? && s.others == {}
    ensures s.heap.live == map[]
  {
    forall h ensures h !in s.heap.live {
      assert Held(s)[h + HM.HEADER] == 0;
    }
  }

  // ---- The handler table ----

  datatype Entry<F> = Entry(id: int, func: F)

  /** The first entry for the id or for the default id, or the length of the table. */
  function Lookup<F>(table: seq<Entry<F>>, id: int): (k: nat)
    ensures k <= |table|
    ensures forall i :: 0 <= i < k ==> table[i].id != id && table[i].id != TASK_ID_DEFAULT
    ensures k < |table| ==> table[k].id == id || table[k].id == TASK_ID_DEFAULT
  {
    if table == [] || table[0].id == id || table[0].id == TASK_ID_DEFAULT then 0 else
      var k := Lookup(table[1..], id);
      assert forall i :: 0 < i < k + 1 ==> table[i] == table[1..][i - 1];
      k + 1
  }

  /** `task_get_handler`. */
  method GetHandler<F>(table: seq<Entry<F>>, id: int) returns (func: Option<F>)
    ensures func == if Lookup(table, id) < |table| then Some(table[Lookup(table, id)].func) else None
    ensures func.None? <==> forall k :: 0 <= k < |table| ==> table[k].id != id && table[k].id != 0xffff_ffff
    ensures func.Some? ==>
              exists k :: && 0 <= k < |table| && func.value == table[k].func
                          && (table[k].id == id || table[k].id == 0xffff_ffff)
                          && forall j :: 0 <= j < k ==> table[j].id != id && table[j].id != 0xffff_ffff
  {
    var i := 0;
    while i < |table|
      invariant 0 <= i <= |table|
      invariant forall j :: 0 <= j < i ==> table[j].id != id && table[j].id != TASK_ID_DEFAULT
    {
      if table[i].id == id || table[i].id == TASK_ID_DEFAULT {
        return Some(table[i].func);
      }
      i := i + 1;
    }
    return None;
  }
}
