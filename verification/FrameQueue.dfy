/** The mSBC encoder's output side: the bounded queue of encoded frames, requests that are served one
    frame at a time while more frames are encoded, and the packets that answer them. */
module FrameQueue {
  import opened Machine

  const MAX_STORED: nat := 400
  const SUB_FRAMES: nat := 4

  datatype Fate = Sent | Dropped

  datatype Departure = Departure(frame: seq<Byte>, fate: Fate)

  /** `packet` holds what the request being served has taken so far. `gone`, `encoded` and `replies`
      record the history, and nothing reads them: a frame is freed when it leaves. */
  datatype Store = Store(queue: seq<seq<Byte>>, packet: Option<seq<seq<Byte>>>,
                         gone: seq<Departure>, encoded: seq<seq<Byte>>, replies: seq<seq<seq<Byte>>>)

  const EMPTY: Store := Store([], None, [], [], [])

  datatype Event =
    | Encoded(frame: seq<Byte>)    // msbc_encoder_engine_encode has put out a frame
    | Asked                        // a request has its channel
    | Taken                        // one pass of its loop
    | Replied                      // and its end

  predicate Legal(s: Store, e: Event) {
    match e
    case Encoded(frame) => frame != []
    case Asked => s.packet.None?
    case Taken => s.packet.Some? && |s.packet.value| < SUB_FRAMES && s.queue != []
    case Replied => s.packet.Some? && (|s.packet.value| >= SUB_FRAMES || s.queue == [])
  }

  function Drop(s: Store): Store
    requires s.queue != []
  {
    s.(queue := s.queue[1..], gone := s.gone + [Departure(s.queue[0], Dropped)])
  }

  function Append(s: Store, frame: seq<Byte>): Store {
    s.(queue := s.queue + [frame], encoded := s.encoded + [frame])
  }

  /** A full queue drops its oldest frame to take the new one. */
  function Push(s: Store, frame: seq<Byte>): Store {
    Append(if |s.queue| >= MAX_STORED then Drop(s) else s, frame)
  }

  function Take(s: Store): Store
    requires Legal(s, Taken)
  {
    s.(queue := s.queue[1..], packet := Some(s.packet.value + [s.queue[0]]),
       gone := s.gone + [Departure(s.queue[0], Sent)])
  }

  /** An empty packet is not sent. */
  function Reply(s: Store): Store
    requires s.packet.Some?
  {
    s.(packet := None, replies := s.replies + if s.packet.value != [] then [s.packet.value] else [])
  }

  function Step(s: Store, e: Event): Store
    requires Legal(s, e)
  {
    match e
    case Encoded(frame) => Push(s, frame)
    case Asked => s.(packet := Some([]))
    case Taken => Take(s)
    case Replied => Reply(s)
  }

  predicate LegalRun(s: Store, es: seq<Event>)
    decreases |es|
  {
    es != [] ==> Legal(s, es[0]) && LegalRun(Step(s, es[0]), es[1..])
  }

  function Run(s: Store, es: seq<Event>): Store
    requires LegalRun(s, es)
    decreases |es|
  {
    if es == [] then s else Run(Step(s, es[0]), es[1..])
  }

  lemma Before(s: Store, e: Event, es: seq<Event>)
    requires Legal(s, e) && LegalRun(Step(s, e), es)
    ensures LegalRun(s, [e] + es) && Run(s, [e] + es) == Run(Step(s, e), es)
  {
    assert ([e] + es)[1..] == es;
  }

  lemma RunAt(s: Store, es: seq<Event>, i: nat)
    requires i < |es| && LegalRun(s, es[i..])
    ensures Legal(s, es[i]) && LegalRun(Step(s, es[i]), es[i + 1..])
    ensures Run(s, es[i..]) == Run(Step(s, es[i]), es[i + 1..])
  {
    assert es[i..][1..] == es[i + 1..];
  }

  lemma RunEnd(s: Store, es: seq<Event>)
    requires es == []
    ensures LegalRun(s, es) && Run(s, es) == s
  {
  }

  // ---- Nothing lost ----

  function FramesOf(gone: seq<Departure>): seq<seq<Byte>> {
    seq(|gone|, i requires 0 <= i < |gone| => gone[i].frame)
  }

  function SentOf(gone: seq<Departure>): seq<seq<Byte>> {
    if gone == [] then []
    else (if gone[0].fate == Sent then [gone[0].frame] else []) + SentOf(gone[1..])
  }

  /** Sent, dropped and queued frames partition the encoded ones, in the order of encoding, and the
      sent ones are those of the packets. */
  predicate Partition(s: Store) {
    && |s.queue| <= 400
    && s.encoded == FramesOf(s.gone) + s.queue
    && (s.packet.Some? ==> |s.packet.value| <= 4)
    && SentOf(s.gone) == Flatten(s.replies) + if s.packet.Some? then s.packet.value else []
  }

  lemma FramesOfAppend(a: seq<Departure>, b: seq<Departure>)
    ensures FramesOf(a + b) == FramesOf(a) + FramesOf(b)
  {
  }

  lemma {:induction false} SentOfAppend(a: seq<Departure>, d: Departure)
    ensures SentOf(a + [d]) == SentOf(a) + if d.fate == Sent then [d.frame] else []
    decreases |a|
  {
    if a == [] {
      assert a + [d] == [d] && [d][1..] == [];
    } else {
      assert (a + [d])[1..] == a[1..] + [d];
      SentOfAppend(a[1..], d);
    }
  }

  /** The oldest frame leaves. */
  lemma DepartKeeps(s: Store, fate: Fate)
    requires s.queue != [] && s.encoded == FramesOf(s.gone) + s.queue
    ensures s.encoded == FramesOf(s.gone + [Departure(s.queue[0], fate)]) + s.queue[1..]
  {
    var d := Departure(s.queue[0], fate);
    FramesOfAppend(s.gone, [d]);
    assert FramesOf([d]) == [s.queue[0]];
    assert s.queue == [s.queue[0]] + s.queue[1..];
  }

  lemma DropPartition(s: Store)
    requires Partition(s) && s.queue != []
    ensures Partition(Drop(s))
  {
    hide FramesOf, SentOf, Flatten;
    DepartKeeps(s, Dropped);
    SentOfAppend(s.gone, Departure(s.queue[0], Dropped));
  }

  lemma AppendPartition(s: Store, frame: seq<Byte>)
    requires Partition(s) && |s.queue| < MAX_STORED
    ensures Partition(Append(s, frame))
  {
    assert s.encoded + [frame] == FramesOf(s.gone) + (s.queue + [frame]);
  }

  lemma PushPartition(s: Store, frame: seq<Byte>)
    requires Partition(s)
    ensures Partition(Push(s, frame))
  {
    hide FramesOf, SentOf, Flatten;
    if |s.queue| >= MAX_STORED {
      DropPartition(s);
      AppendPartition(Drop(s), frame);
    } else {
      AppendPartition(s, frame);
    }
  }

  lemma TakePartition(s: Store)
    requires Partition(s) && Legal(s, Taken)
    ensures Partition(Take(s))
  {
    hide FramesOf, SentOf, Flatten;
    DepartKeeps(s, Sent);
    SentOfAppend(s.gone, Departure(s.queue[0], Sent));
    var sent, p, f := Flatten(s.replies), s.packet.value, [s.queue[0]];
    assert (sent + p) + f == sent + (p + f);
  }

  lemma ReplyPartition(s: Store)
    requires Partition(s) && s.packet.Some?
    ensures Partition(Reply(s))
  {
    hide FramesOf, SentOf;
    var p := s.packet.value;
    FlattenAppend(s.replies, [p]);
    assert Flatten([p]) == p + Flatten([p][1..]) == p;
    assert s.replies + [] == s.replies;
    assert Flatten(Reply(s).replies) + [] == Flatten(s.replies) + p;
  }

  lemma {:induction false} RunPartition(s: Store, es: seq<Event>)
    requires Partition(s) && LegalRun(s, es)
    ensures Partition(Run(s, es))
    decreases |es|
  {
    hide Partition, Push, Take, Reply;
    if es != [] {
      match es[0] {
        case Encoded(frame) => PushPartition(s, frame);
        case Asked => AskPartition(s);
        case Taken => TakePartition(s);
        case Replied => ReplyPartition(s);
      }
      RunPartition(Step(s, es[0]), es[1..]);
    }
  }

  lemma AskPartition(s: Store)
    requires Partition(s) && s.packet.None?
    ensures Partition(s.(packet := Some([])))
  {
  }

  // ---- Drops ----

  function Drops(gone: seq<Departure>): nat {
    if gone == [] then 0 else (if gone[0].fate == Dropped then 1 else 0) + Drops(gone[1..])
  }

  /** No frame is encoded while the queue holds 400. */
  predicate NeverFull(s: Store, es: seq<Event>)
    requires LegalRun(s, es)
    decreases |es|
  {
    es != [] ==> !(es[0].Encoded? && |s.queue| >= 400) && NeverFull(Step(s, es[0]), es[1..])
  }

  lemma {:induction false} DropsAppend(a: seq<Departure>, d: Departure)
    ensures Drops(a + [d]) == Drops(a) + if d.fate == Dropped then 1 else 0
    decreases |a|
  {
    if a == [] {
      assert a + [d] == [d] && [d][1..] == [];
    } else {
      assert (a + [d])[1..] == a[1..] + [d];
      DropsAppend(a[1..], d);
    }
  }

  lemma StepDrops(s: Store, e: Event)
    requires Legal(s, e)
    ensures Drops(Step(s, e).gone) == Drops(s.gone) + if e.Encoded? && |s.queue| >= MAX_STORED then 1 else 0
  {
    if s.queue != [] {
      DropsAppend(s.gone, Departure(s.queue[0], if e.Encoded? then Dropped else Sent));
    }
  }

  /** A run drops nothing if and only if requests keep up: the queue is never full when a frame comes. */
  lemma {:induction false} DropsIff(s: Store, es: seq<Event>)
    requires LegalRun(s, es)
    ensures Drops(Run(s, es).gone) >= Drops(s.gone)
    ensures Drops(Run(s, es).gone) == Drops(s.gone) <==> NeverFull(s, es)
    decreases |es|
  {
    hide Step, Drops;
    if es != [] {
      StepDrops(s, es[0]);
      DropsIff(Step(s, es[0]), es[1..]);
    }
  }

  // ---- What a packet holds ----

  function FramesIn(es: seq<Event>): seq<seq<Byte>> {
    if es == [] then [] else (if es[0].Encoded? then [es[0].frame] else []) + FramesIn(es[1..])
  }

  /** While a request is served only frames are encoded and taken. */
  predicate Serving(es: seq<Event>) {
    forall i :: 0 <= i < |es| ==> es[i].Encoded? || es[i].Taken?
  }

  /** One request, from its channel to its answer. */
  predicate Request(es: seq<Event>) {
    |es| >= 2 && es[0] == Asked && es[|es| - 1] == Replied && Serving(es[1..|es| - 1])
  }

  lemma ServeStep(s: Store, e: Event)
    requires Legal(s, e) && s.packet.Some? && (e.Encoded? || e.Taken?)
    ensures Step(s, e).packet.Some?
    ensures var t, more := Step(s, e), if e.Encoded? then [e.frame] else [];
            if e.Encoded? && |s.queue| >= MAX_STORED
            then |t.packet.value| + |t.queue| < |s.packet.value| + |s.queue| + |more|
            else t.packet.value + t.queue == s.packet.value + s.queue + more
  {
    if e.Taken? {
      assert s.packet.value + s.queue + [] == (s.packet.value + [s.queue[0]]) + s.queue[1..];
    } else {
      assert s.packet.value + s.queue + [e.frame] == s.packet.value + (s.queue + [e.frame]);
    }
  }

  lemma {:induction false} ServeRun(s: Store, es: seq<Event>)
    requires LegalRun(s, es) && s.packet.Some? && Serving(es)
    ensures Run(s, es).packet.Some?
    ensures var t := Run(s, es);
            && |t.packet.value| + |t.queue| <= |s.packet.value| + |s.queue| + |FramesIn(es)|
            && (t.packet.value + t.queue == s.packet.value + s.queue + FramesIn(es) <==> NeverFull(s, es))
    decreases |es|
  {
    hide Step, Legal, Push;
    if es == [] {
      assert s.packet.value + s.queue + [] == s.packet.value + s.queue;
    } else {
      ServeStep(s, es[0]);
      ServeRun(Step(s, es[0]), es[1..]);
      var more := if es[0].Encoded? then [es[0].frame] else [];
      var t, u := Step(s, es[0]), Run(s, es);
      Regroups(s.packet.value + s.queue, more, FramesIn(es[1..]), t.packet.value + t.queue, u.packet.value + u.queue);
    }
  }

  lemma Regroups<T>(a: seq<T>, b: seq<T>, c: seq<T>, ab: seq<T>, abc: seq<T>)
    ensures ab == a + b ==> (abc == ab + c <==> abc == a + (b + c))
    ensures |ab| < |a| + |b| && |abc| <= |ab| + |c| ==> abc != a + (b + c)
  {
    assert a + b + c == a + (b + c);
  }

  /** The packet is the oldest of the frames queued and encoded meanwhile - four of them, or all there
      are - if and only if no frame met a full queue while the request was served. */
  lemma PacketIsOldestIff(s: Store, es: seq<Event>)
    requires Partition(s) && s.packet == Some([]) && LegalRun(s, es) && Serving(es) && Legal(Run(s, es), Replied)
    ensures var t, all := Run(s, es), s.queue + FramesIn(es);
            && (t.packet.value + t.queue == all <==> NeverFull(s, es))
            && (NeverFull(s, es) ==> t.packet.value == all[..Min(|all|, 4)])
  {
    ServeRun(s, es);
    RunPartition(s, es);
    var t, all := Run(s, es), s.queue + FramesIn(es);
    assert [] + s.queue + FramesIn(es) == all;
    if NeverFull(s, es) {
      assert t.packet.value == all[..|t.packet.value|];
    }
  }

  /** From a full queue: one frame is taken, two are encoded, and the next one taken is the third. */
  lemma SkippedFrame(s: Store, f: seq<Byte>, g: seq<Byte>)
    requires |s.queue| == 400 && s.packet == Some([]) && f != [] && g != []
    ensures var es := [Taken, Encoded(f), Encoded(g), Taken];
            LegalRun(s, es) && Run(s, es).packet == Some([s.queue[0], s.queue[2]])
  {
    var s1 := Take(s);
    var s2 := Push(s1, f);
    var s3 := Push(s2, g);
    assert s1.packet.value == [s.queue[0]] && s3.queue[0] == s.queue[2];
    assert Take(s3).packet.value == [s.queue[0], s.queue[2]];
    Before(s3, Taken, []);
    Before(s2, Encoded(g), [Taken]);
    Before(s1, Encoded(f), [Encoded(g), Taken]);
    Before(s, Taken, [Encoded(f), Encoded(g), Taken]);
  }

  // ---- Reply packets ----

  /** Cut a payload into pieces of `n` bytes, as a receiver that trusts the header does. */
  function Split(payload: seq<Byte>, n: nat): seq<seq<Byte>>
    decreases |payload|
  {
    if payload == [] then []
    else if n == 0 || |payload| <= n then [payload]
    else [payload[..n]] + Split(payload[n..], n)
  }

  /** The header of a packet holds the length of its last frame, cut to 16 bits. */
  function Header(frames: seq<seq<Byte>>): nat
    requires frames != []
  {
    |frames[|frames| - 1]| % 0x1_0000
  }

  predicate Uniform(frames: seq<seq<Byte>>, n: nat) {
    forall i :: 0 <= i < |frames| ==> |frames[i]| == n
  }

  predicate NonEmpty(frames: seq<seq<Byte>>) {
    forall i :: 0 <= i < |frames| ==> frames[i] != []
  }

  lemma {:induction false} SplitUniform(frames: seq<seq<Byte>>, n: nat)
    requires Uniform(frames, n) && 0 < n
    ensures Split(Flatten(frames), n) == frames
    decreases |frames|
  {
    if frames != [] {
      SplitUniform(frames[1..], n);
      FlattenUniform(frames[1..], n);
      var p := Flatten(frames);
      if |frames| == 1 {
        assert p == frames[0];
        assert frames == [frames[0]];
      } else {
        assert p[..n] == frames[0] && p[n..] == Flatten(frames[1..]);
        FlattenUniform(frames, n);
      }
    }
  }

  lemma {:induction false} FlattenUniform(frames: seq<seq<Byte>>, n: nat)
    requires Uniform(frames, n)
    ensures |Flatten(frames)| == |frames| * n
    decreases |frames|
  {
    if frames != [] {
      FlattenUniform(frames[1..], n);
    }
  }

  lemma {:induction false} SplitPieces(payload: seq<Byte>, n: nat)
    requires 0 < n
    ensures var ps := Split(payload, n);
            && (forall i :: 0 <= i < |ps| - 1 ==> |ps[i]| == n)
            && (ps != [] ==> |ps[|ps| - 1]| <= n)
    decreases |payload|
  {
    if |payload| > n {
      SplitPieces(payload[n..], n);
      var ps := Split(payload, n);
      assert forall i :: 0 < i < |ps| ==> ps[i] == Split(payload[n..], n)[i - 1];
      assert payload[n..] != [] && Split(payload[n..], n) != [];
    }
  }

  lemma LastLength(last: nat, n: nat)
    requires n == last % 0x1_0000 && last <= n
    ensures last == n
  {
  }

  lemma SplitBack(frames: seq<seq<Byte>>, n: nat)
    requires frames != [] && 0 < n && n == Header(frames) && Split(Flatten(frames), n) == frames
    ensures Uniform(frames, n)
  {
    SplitPieces(Flatten(frames), n);
    LastLength(|frames[|frames| - 1]|, n);
  }

  lemma SplitZero(frames: seq<seq<Byte>>)
    requires frames != [] && NonEmpty(frames)
    ensures Split(Flatten(frames), 0) == frames <==> |frames| == 1
  {
    var p := Flatten(frames);
    assert p != [] && Split(p, 0) == [p];
    if |frames| == 1 {
      assert p == frames[0] + Flatten(frames[1..]) && frames[1..] == [];
      assert p == frames[0];
    }
  }

  /** The receiver recovers the frames if and only if they all have the length the header tells. */
  lemma UnpackIff(frames: seq<seq<Byte>>)
    requires frames != [] && NonEmpty(frames)
    ensures Split(Flatten(frames), Header(frames)) == frames <==>
            if Header(frames) == 0 then |frames| == 1 else Uniform(frames, Header(frames))
  {
    hide Uniform, NonEmpty, Header;
    var n := Header(frames);
    if n == 0 {
      SplitZero(frames);
    } else {
      if Uniform(frames, n) {
        SplitUniform(frames, n);
      }
      if Split(Flatten(frames), n) == frames {
        SplitBack(frames, n);
      }
    }
  }

  /** Two frames of one and two bytes, sent in one packet: the receiver gets two other ones. */
  lemma UnequalFrames()
    ensures var es := [Encoded([1]), Encoded([2, 3]), Asked, Taken, Taken, Replied];
            && LegalRun(EMPTY, es) && Run(EMPTY, es).replies == [[[1], [2, 3]]]
    ensures var p: seq<seq<Byte>> := [[1], [2, 3]]; Split(Flatten(p), Header(p)) == [[1, 2], [3]]
  {
    UnequalRun();
    var p: seq<seq<Byte>> := [[1], [2, 3]];
    assert Flatten(p) == [1, 2, 3] by {
      assert p[1..] == [[2, 3]] && p[1..][1..] == [];
      assert Flatten(p[1..]) == [2, 3] + [];
      assert [1] + [2, 3] == [1, 2, 3];
    }
    var payload: seq<Byte> := [1, 2, 3];
    assert payload[..2] == [1, 2] && payload[2..] == [3];
    assert Split([3], 2) == [[3]];
  }

  lemma UnequalRun()
    ensures var es := [Encoded([1]), Encoded([2, 3]), Asked, Taken, Taken, Replied];
            LegalRun(EMPTY, es) && Run(EMPTY, es).replies == [[[1], [2, 3]]]
  {
    var s1 := Push(EMPTY, [1]);
    var s2 := Push(s1, [2, 3]);
    assert s2.queue == [[1], [2, 3]];
    var s3 := s2.(packet := Some([]));
    var s4 := Take(s3);
    var s5 := Take(s4);
    assert s5.packet == Some([[1], [2, 3]]) && s5.queue == [];
    Before(s5, Replied, []);
    Before(s4, Taken, [Replied]);
    Before(s3, Taken, [Taken, Replied]);
    Before(s2, Asked, [Taken, Taken, Replied]);
    Before(s1, Encoded([2, 3]), [Asked, Taken, Taken, Replied]);
    Before(EMPTY, Encoded([1]), [Encoded([2, 3]), Asked, Taken, Taken, Replied]);
  }

  /** With frames of one length up to 57, a packet fits the 230 bytes its channel is asked for. */
  lemma PacketFits(p: seq<seq<Byte>>, n: nat)
    requires Uniform(p, n) && n <= 57 && |p| <= 4
    ensures 2 + |Flatten(p)| == 2 + |p| * n <= 230
  {
    FlattenUniform(p, n);
    assert |p| * n <= 4 * 57;
  }
}
