/** The mSBC encoder: the loop that cuts the input into full codec buffers, the bounded queue of
    encoded frames, and the packets that answer requests. */
module EncoderModel {
  import opened Machine

  datatype StartReply = StartReply(used: nat, done: bool)
  datatype EncodeReply = EncodeReply(used: nat, out: seq<Byte>)

  /** A call of the codec, of either kind, and the full buffer it was given. */
  datatype Call = Call(encoding: bool, buffer: seq<Byte>)

  /** The closed codec: its answer depends on all the calls before and on the buffer it is given. */
  datatype Codec = Codec(start: (seq<Call>, seq<Byte>) -> StartReply, encode: (seq<Call>, seq<Byte>) -> EncodeReply)

  /** The codec never uses more than the full buffer. */
  ghost predicate Sane(c: Codec, size: nat) {
    forall calls, b :: |b| == size ==> c.start(calls, b).used <= size && c.encode(calls, b).used <= size
  }

  /** `held` is the filled part of the codec's input buffer. */
  datatype Chunker = Chunker(held: seq<Byte>, initDone: bool, calls: seq<Call>,
                             consumed: seq<Byte>, frames: seq<seq<Byte>>)

  function Used(c: Codec, s: Chunker): nat {
    if s.initDone then c.encode(s.calls, s.held).used else c.start(s.calls, s.held).used
  }

  /** One call of the engine on a full buffer, and the shift that follows it. */
  function Engine(c: Codec, s: Chunker): Chunker
    requires Used(c, s) <= |s.held|
  {
    var out := if s.initDone then c.encode(s.calls, s.held).out else [];
    Chunker(s.held[Used(c, s)..],
            s.initDone || c.start(s.calls, s.held).done,
            s.calls + [Call(s.initDone, s.held)],
            s.consumed + s.held[..Used(c, s)],
            s.frames + if out != [] then [out] else [])
  }

  /** What is left of the input in the middle of the loop. */
  datatype Delivery = Delivery(state: Chunker, rest: seq<Byte>)

  ghost predicate Fits(c: Codec, size: nat, d: Delivery) {
    Sane(c, size) && |d.state.held| <= size
  }

  /** The buffer filled up from the input. */
  function Filled(size: nat, d: Delivery): Chunker
    requires |d.state.held| <= size <= |d.state.held| + |d.rest|
  {
    d.state.(held := d.state.held + d.rest[..size - |d.state.held|])
  }

  /** One pass of the loop of `msbc_encoder_recv_frame`: fill the buffer and call the engine, or keep
      what is too little. */
  ghost function Pass(c: Codec, size: nat, d: Delivery): (e: Delivery)
    requires Fits(c, size, d)
    ensures Fits(c, size, e)
  {
    var space := size - |d.state.held|;
    if d.rest == [] then d
    else if |d.rest| >= space then Delivery(Engine(c, Filled(size, d)), d.rest[space..])
    else Delivery(d.state.(held := d.state.held + d.rest), [])
  }

  ghost function Passes(c: Codec, size: nat, d: Delivery, n: nat): (e: Delivery)
    requires Fits(c, size, d)
    ensures Fits(c, size, e)
    decreases n
  {
    if n == 0 then d else Passes(c, size, Pass(c, size, d), n - 1)
  }

  /** The loop ends after at most `n` passes. */
  ghost predicate Ends(c: Codec, size: nat, d: Delivery, n: nat)
    requires Fits(c, size, d)
  {
    Passes(c, size, d, n).rest == []
  }

  ghost predicate Settles(c: Codec, size: nat, d: Delivery)
    requires Fits(c, size, d)
  {
    exists n: nat :: Ends(c, size, d, n)
  }

  /** `msbc_encoder_recv_frame`, where its loop ends. */
  ghost function Feed(c: Codec, size: nat, d: Delivery): (t: Chunker)
    requires Fits(c, size, d) && Settles(c, size, d)
    ensures |t.held| <= size
  {
    var n: nat :| Ends(c, size, d, n);
    Passes(c, size, d, n).state
  }

  lemma {:induction false} NothingLeft(c: Codec, size: nat, d: Delivery, n: nat)
    requires Fits(c, size, d) && d.rest == []
    ensures Passes(c, size, d, n) == d
    decreases n
  {
    if n > 0 {
      NothingLeft(c, size, d, n - 1);
    }
  }

  lemma {:induction false} EndedStays(c: Codec, size: nat, d: Delivery, n: nat, m: nat)
    requires Fits(c, size, d) && Ends(c, size, d, n) && n <= m
    ensures Passes(c, size, d, m) == Passes(c, size, d, n)
    decreases n
  {
    if n == 0 {
      NothingLeft(c, size, d, m);
    } else {
      EndedStays(c, size, Pass(c, size, d), n - 1, m - 1);
    }
  }

  lemma FeedIs(c: Codec, size: nat, d: Delivery, n: nat)
    requires Fits(c, size, d) && Ends(c, size, d, n)
    ensures Settles(c, size, d) && Passes(c, size, d, n) == Delivery(Feed(c, size, d), [])
  {
    var m: nat :| Ends(c, size, d, m) && Feed(c, size, d) == Passes(c, size, d, m).state;
    EndedStays(c, size, d, Min(n, m), Max(n, m));
  }

  // ---- The stream ----

  lemma EngineStream(c: Codec, s: Chunker)
    requires Used(c, s) <= |s.held|
    ensures Engine(c, s).consumed + Engine(c, s).held == s.consumed + s.held
  {
    assert s.held == s.held[..Used(c, s)] + s.held[Used(c, s)..];
  }

  function Stream(d: Delivery): seq<Byte> {
    d.state.consumed + d.state.held + d.rest
  }

  lemma PassStream(c: Codec, size: nat, d: Delivery)
    requires Fits(c, size, d)
    ensures Stream(Pass(c, size, d)) == Stream(d)
  {
    var space := size - |d.state.held|;
    if d.rest != [] && |d.rest| >= space {
      EngineStream(c, Filled(size, d));
      assert d.state.consumed + (d.state.held + d.rest[..space]) + d.rest[space..]
          == d.state.consumed + d.state.held + (d.rest[..space] + d.rest[space..]);
      assert d.rest[..space] + d.rest[space..] == d.rest;
    } else {
      assert d.state.consumed + (d.state.held + d.rest) + [] == d.state.consumed + d.state.held + d.rest;
    }
  }

  /** At every moment of the loop, whether it ends or not, what the codec has used, what is held and
      what is still to be delivered are the whole input. */
  lemma {:induction false} PassesStream(c: Codec, size: nat, d: Delivery, n: nat)
    requires Fits(c, size, d)
    ensures Stream(Passes(c, size, d, n)) == Stream(d)
    decreases n
  {
    if n > 0 {
      PassStream(c, size, d);
      PassesStream(c, size, Pass(c, size, d), n - 1);
    }
  }

  lemma FeedStream(c: Codec, size: nat, s: Chunker, data: seq<Byte>)
    requires Fits(c, size, Delivery(s, data)) && Settles(c, size, Delivery(s, data))
    ensures var t := Feed(c, size, Delivery(s, data)); t.consumed + t.held == s.consumed + s.held + data
  {
    var n: nat :| Ends(c, size, Delivery(s, data), n);
    FeedIs(c, size, Delivery(s, data), n);
    PassesStream(c, size, Delivery(s, data), n);
    var t := Feed(c, size, Delivery(s, data));
    assert t.consumed + t.held + [] == t.consumed + t.held;
  }

  /** One pass, in terms of the bytes at hand: a full buffer of the first of them is offered to the codec
      as soon as there are enough, and what it does not use stays; fewer are all held. */
  lemma PassExact(c: Codec, size: nat, d: Delivery)
    requires Fits(c, size, d) && d.rest != []
    ensures var e, all := Pass(c, size, d), d.state.held + d.rest;
            if |all| >= size
            then && e.state.calls == d.state.calls + [Call(d.state.initDone, all[..size])]
                 && |e.state.held + e.rest| <= |all| && e.state.held + e.rest == all[|all| - |e.state.held + e.rest|..]
            else e.state == d.state.(held := all) && e.rest == []
  {
    var all := d.state.held + d.rest;
    if |all| >= size {
      var full := Filled(size, d);
      var used := Used(c, full);
      assert full.held == all[..size];
      assert all[..size][used..] + d.rest[size - |d.state.held|..] == all[used..];
    }
  }

  // ---- What the calls were ----

  /** Has the codec answered that it is initialised? */
  predicate SaidDone(c: Codec, calls: seq<Call>) {
    exists j :: 0 <= j < |calls| && !calls[j].encoding && c.start(calls[..j], calls[j].buffer).done
  }

  /** How much of its buffer the codec used in the last of the calls. */
  function LastUsed(c: Codec, calls: seq<Call>): nat
    requires calls != []
  {
    var before, last := calls[..|calls| - 1], calls[|calls| - 1];
    if last.encoding then c.encode(before, last.buffer).used else c.start(before, last.buffer).used
  }

  /** The bytes used in all of the calls. */
  function UsedIn(c: Codec, calls: seq<Call>): seq<Byte>
    decreases |calls|
  {
    if calls == [] then [] else
      var buffer := calls[|calls| - 1].buffer;
      UsedIn(c, calls[..|calls| - 1]) + buffer[..Min(LastUsed(c, calls), |buffer|)]
  }

  /** What the codec has put out in them, an encode call that puts out nothing giving no frame. */
  function Outputs(c: Codec, calls: seq<Call>): seq<seq<Byte>>
    decreases |calls|
  {
    if calls == [] then [] else
      var before, last := calls[..|calls| - 1], calls[|calls| - 1];
      var out := if last.encoding then c.encode(before, last.buffer).out else [];
      Outputs(c, before) + if out == [] then [] else [out]
  }

  /** The codec is called with full buffers, to start until it is initialised and to encode from then
      on, and what is recorded of it is what it answered. */
  ghost predicate MadeBy(c: Codec, size: nat, s: Chunker) {
    && (forall i :: 0 <= i < |s.calls| ==>
          |s.calls[i].buffer| == size && (s.calls[i].encoding <==> SaidDone(c, s.calls[..i])))
    && (s.initDone <==> SaidDone(c, s.calls))
    && s.consumed == UsedIn(c, s.calls)
    && s.frames == Outputs(c, s.calls)
  }

  lemma OneMoreCall(c: Codec, calls: seq<Call>, call: Call)
    ensures var more := calls + [call];
            && more[..|more| - 1] == calls && more[|more| - 1] == call
            && (SaidDone(c, more) <==> SaidDone(c, calls) || (!call.encoding && c.start(calls, call.buffer).done))
    ensures forall i :: 0 <= i <= |calls| ==> (calls + [call])[..i] == calls[..i]
  {
    var more := calls + [call];
    assert more[..|calls|] == calls;
    if j :| 0 <= j < |more| && !more[j].encoding && c.start(more[..j], more[j].buffer).done {
      assert j < |calls| ==> more[..j] == calls[..j] && more[j] == calls[j];
    }
    if j :| 0 <= j < |calls| && !calls[j].encoding && c.start(calls[..j], calls[j].buffer).done {
      assert more[..j] == calls[..j] && more[j] == calls[j];
    }
  }

  lemma EngineMadeBy(c: Codec, size: nat, s: Chunker)
    requires MadeBy(c, size, s) && |s.held| == size && Used(c, s) <= size
    ensures MadeBy(c, size, Engine(c, s))
  {
    hide SaidDone;
    OneMoreCall(c, s.calls, Call(s.initDone, s.held));
    var t := Engine(c, s);
    forall i | 0 <= i < |t.calls|
      ensures |t.calls[i].buffer| == size && (t.calls[i].encoding <==> SaidDone(c, t.calls[..i]))
    {
      assert t.calls[..i] == s.calls[..i];
      if i < |s.calls| {
        assert t.calls[i] == s.calls[i];
      } else {
        assert s.calls[..i] == s.calls;
      }
    }
  }

  /** So it is at every pass of the loop, for a new encoder and from then on. */
  lemma {:induction false} PassesMadeBy(c: Codec, size: nat, d: Delivery, n: nat)
    requires Fits(c, size, d) && MadeBy(c, size, d.state)
    ensures MadeBy(c, size, Passes(c, size, d, n).state)
    decreases n
  {
    hide MadeBy, Sane;
    if n > 0 {
      if d.rest != [] && |d.rest| >= size - |d.state.held| {
        SameCalls(c, size, d.state, Filled(size, d));
        FilledFits(c, size, d);
        EngineMadeBy(c, size, Filled(size, d));
      } else {
        SameCalls(c, size, d.state, Pass(c, size, d).state);
      }
      PassesMadeBy(c, size, Pass(c, size, d), n - 1);
    }
  }

  lemma SameCalls(c: Codec, size: nat, s: Chunker, t: Chunker)
    requires MadeBy(c, size, s) && t == s.(held := t.held)
    ensures MadeBy(c, size, t)
  {
  }

  lemma FilledFits(c: Codec, size: nat, d: Delivery)
    requires Fits(c, size, d) && |d.rest| >= size - |d.state.held|
    ensures Used(c, Filled(size, d)) <= size == |Filled(size, d).held|
  {
  }

  lemma NewMadeBy(c: Codec, size: nat)
    ensures MadeBy(c, size, Chunker([], false, [], [], []))
  {
  }

  // ---- Cutting the input ----

  /** A delivery that leaves the buffer short is as good as the front of the next one. */
  lemma ShortPass(c: Codec, size: nat, s: Chunker, a: seq<Byte>, b: seq<Byte>)
    requires Fits(c, size, Delivery(s, a)) && |s.held| + |a| < size && b != []
    ensures Pass(c, size, Delivery(s, a + b)) == Pass(c, size, Delivery(s.(held := s.held + a), b))
  {
    hide Engine;
    var t, space := s.(held := s.held + a), size - |s.held|;
    if |a + b| >= space {
      assert t.held + b[..space - |a|] == s.held + (a + b)[..space];
      assert (a + b)[space..] == b[space - |a|..];
    } else {
      assert s.held + (a + b) == t.held + b;
    }
  }

  lemma LongPass(c: Codec, size: nat, s: Chunker, a: seq<Byte>, b: seq<Byte>)
    requires Fits(c, size, Delivery(s, a)) && |s.held| + |a| >= size && a != []
    ensures var d := Pass(c, size, Delivery(s, a));
            Pass(c, size, Delivery(s, a + b)) == Delivery(d.state, d.rest + b)
  {
    hide Engine;
    var space := size - |s.held|;
    assert (a + b)[..space] == a[..space] && (a + b)[space..] == a[space..] + b;
  }

  lemma ShortEnds(c: Codec, size: nat, s: Chunker, a: seq<Byte>, n: nat)
    requires Fits(c, size, Delivery(s, a)) && |s.held| + |a| < size && a != [] && n > 0
    ensures Passes(c, size, Delivery(s, a), n) == Delivery(s.(held := s.held + a), [])
  {
    NothingLeft(c, size, Pass(c, size, Delivery(s, a)), n - 1);
  }

  /** If the loop ends for `a` and then for `b`, it ends for both at once, in the same state. */
  lemma {:induction false} SplitEnds(c: Codec, size: nat, s: Chunker, a: seq<Byte>, b: seq<Byte>, n: nat, m: nat)
    returns (k: nat)
    requires Fits(c, size, Delivery(s, a)) && Ends(c, size, Delivery(s, a), n)
    requires Ends(c, size, Delivery(Passes(c, size, Delivery(s, a), n).state, b), m)
    ensures Passes(c, size, Delivery(s, a + b), k) ==
            Passes(c, size, Delivery(Passes(c, size, Delivery(s, a), n).state, b), m)
    decreases n
  {
    hide Pass, Sane;
    if a == [] {
      NothingLeft(c, size, Delivery(s, a), n);
      assert a + b == b;
      k := m;
    } else if |s.held| + |a| >= size {
      LongPass(c, size, s, a, b);
      var d := Pass(c, size, Delivery(s, a));
      var more := SplitEnds(c, size, d.state, d.rest, b, n - 1, m);
      k := more + 1;
    } else {
      ShortEnds(c, size, s, a, n);
      if b == [] {
        assert a + b == a;
        NothingLeft(c, size, Delivery(s.(held := s.held + a), b), m);
        k := n;
      } else {
        ShortPass(c, size, s, a, b);
        k := m;
      }
    }
  }

  /** And the other way round. */
  lemma {:induction false} JoinedEnds(c: Codec, size: nat, s: Chunker, a: seq<Byte>, b: seq<Byte>, k: nat)
    returns (n: nat, m: nat)
    requires Fits(c, size, Delivery(s, a)) && Ends(c, size, Delivery(s, a + b), k)
    ensures Ends(c, size, Delivery(s, a), n)
    ensures Passes(c, size, Delivery(Passes(c, size, Delivery(s, a), n).state, b), m) ==
            Passes(c, size, Delivery(s, a + b), k)
    decreases k
  {
    hide Pass, Sane;
    if a == [] {
      assert a + b == b;
      n, m := 0, k;
    } else if |s.held| + |a| >= size {
      LongPass(c, size, s, a, b);
      var d := Pass(c, size, Delivery(s, a));
      var n', m' := JoinedEnds(c, size, d.state, d.rest, b, k - 1);
      n, m := n' + 1, m';
    } else {
      ShortEnds(c, size, s, a, 1);
      n := 1;
      if b == [] {
        assert a + b == a;
        ShortEnds(c, size, s, a, k);
        m := 0;
      } else {
        ShortPass(c, size, s, a, b);
        m := k;
      }
    }
  }

  /** How the input is cut into deliveries makes no difference: not to the calls of the codec and the
      buffers they get, not to the frames that come out, not to what is held, not to whether it ends. */
  lemma FeedSplit(c: Codec, size: nat, s: Chunker, a: seq<Byte>, b: seq<Byte>)
    requires Fits(c, size, Delivery(s, a))
    ensures Settles(c, size, Delivery(s, a + b)) <==>
            Settles(c, size, Delivery(s, a)) && Settles(c, size, Delivery(Feed(c, size, Delivery(s, a)), b))
    ensures Settles(c, size, Delivery(s, a + b)) ==>
            Feed(c, size, Delivery(s, a + b)) == Feed(c, size, Delivery(Feed(c, size, Delivery(s, a)), b))
  {
    var whole, first := Delivery(s, a + b), Delivery(s, a);
    if k: nat :| Ends(c, size, whole, k) {
      var n, m := JoinedEnds(c, size, s, a, b, k);
      FeedIs(c, size, whole, k);
      FeedIs(c, size, first, n);
      FeedIs(c, size, Delivery(Feed(c, size, first), b), m);
    }
    if Settles(c, size, first) && Settles(c, size, Delivery(Feed(c, size, first), b)) {
      var n: nat :| Ends(c, size, first, n);
      FeedIs(c, size, first, n);
      var m: nat :| Ends(c, size, Delivery(Feed(c, size, first), b), m);
      var k := SplitEnds(c, size, s, a, b, n, m);
      assert Ends(c, size, whole, k);
    }
  }

  // ---- When the loop ends ----

  /** The bytes still to be used, and the initialisation if it is still to be done. */
  function Work(d: Delivery): nat {
    |d.state.held| + |d.rest| + if d.state.initDone then 0 else 1
  }

  /** The engine's call makes room, or completes the initialisation. */
  predicate Progress(c: Codec, s: Chunker) {
    if s.initDone then c.encode(s.calls, s.held).used > 0
    else c.start(s.calls, s.held).used > 0 || c.start(s.calls, s.held).done
  }

  /** The same call made `j` times over. */
  function Again(calls: seq<Call>, call: Call, j: nat): seq<Call>
    decreases j
  {
    if j == 0 then calls else Again(calls + [call], call, j - 1)
  }

  function Retried(s: Chunker, j: nat): Chunker {
    s.(calls := Again(s.calls, Call(s.initDone, s.held), j))
  }

  lemma StalledCall(c: Codec, s: Chunker)
    requires !Progress(c, s)
    ensures Used(c, s) == 0
    ensures var t := Engine(c, s);
            t.held == s.held && t.initDone == s.initDone && t.calls == s.calls + [Call(s.initDone, s.held)]
  {
    assert s.held[0..] == s.held;
  }

  /** A call that makes no progress leaves the full buffer and the mode as they were. */
  lemma StalledPass(c: Codec, size: nat, d: Delivery)
    requires Fits(c, size, d) && d.rest != [] && |d.state.held| + |d.rest| >= size
    requires !Progress(c, Filled(size, d))
    ensures var full, e := Filled(size, d), Pass(c, size, d);
            && e.state.held == full.held && e.state.initDone == full.initDone
            && e.state.calls == full.calls + [Call(full.initDone, full.held)]
            && e.rest == d.rest[size - |d.state.held|..]
  {
    hide Sane, Engine, Used, Progress, Filled;
    StalledCall(c, Filled(size, d));
  }

  lemma ProgressPass(c: Codec, size: nat, d: Delivery)
    requires Fits(c, size, d) && d.rest != [] && |d.state.held| + |d.rest| >= size
    requires Progress(c, Filled(size, d))
    ensures Work(Pass(c, size, d)) < Work(d)
  {
  }

  /** After a call without progress one try fewer is left. */
  lemma NextTry(c: Codec, s: Chunker, t: Chunker, j: nat)
    requires Progress(c, Retried(s, j)) && !Progress(c, s)
    requires t.held == s.held && t.initDone == s.initDone && t.calls == s.calls + [Call(s.initDone, s.held)]
    ensures j > 0 && Progress(c, Retried(t, j - 1))
  {
  }

  /** A full buffer of which no call uses anything stays full, and the input waits. */
  lemma {:induction false} Stalls(c: Codec, size: nat, d: Delivery, n: nat)
    requires Fits(c, size, d) && |d.state.held| == size && d.rest != []
    requires forall j: nat :: !Progress(c, Retried(d.state, j))
    ensures !Ends(c, size, d, n)
    decreases n
  {
    hide Sane, Pass, Progress;
    if n > 0 {
      var e := Pass(c, size, d);
      assert !Progress(c, Retried(d.state, 0));
      assert Filled(size, d) == d.state;
      StalledPass(c, size, d);
      forall j: nat ensures !Progress(c, Retried(e.state, j)) {
        StillStalled(c, d.state, e.state, j);
      }
      Stalls(c, size, e, n - 1);
    }
  }

  lemma StillStalled(c: Codec, s: Chunker, t: Chunker, j: nat)
    requires !Progress(c, Retried(s, j + 1))
    requires t.held == s.held && t.initDone == s.initDone && t.calls == s.calls + [Call(s.initDone, s.held)]
    ensures !Progress(c, Retried(t, j))
  {
  }

  lemma {:induction false} PassesAdd(c: Codec, size: nat, d: Delivery, n: nat, m: nat)
    requires Fits(c, size, d)
    ensures Passes(c, size, d, n + m) == Passes(c, size, Passes(c, size, d, n), m)
    decreases n
  {
    if n > 0 {
      PassesAdd(c, size, Pass(c, size, d), n - 1, m);
    }
  }

  /** A full buffer with more input behind it is used in the end, if it is offered again and again. */
  ghost predicate Yields(c: Codec, size: nat, d: Delivery)
    requires Fits(c, size, d)
  {
    d.rest != [] && size < |d.state.held| + |d.rest| ==> exists j: nat :: Progress(c, Retried(Filled(size, d), j))
  }

  ghost predicate AlwaysYields(c: Codec, size: nat, d: Delivery)
    requires Fits(c, size, d)
  {
    forall n: nat :: Yields(c, size, Passes(c, size, d, n))
  }

  lemma LaterYields(c: Codec, size: nat, d: Delivery)
    requires Fits(c, size, d) && AlwaysYields(c, size, d)
    ensures AlwaysYields(c, size, Pass(c, size, d))
  {
    forall n: nat ensures Yields(c, size, Passes(c, size, Pass(c, size, d), n)) {
      assert Passes(c, size, d, n + 1) == Passes(c, size, Pass(c, size, d), n);
    }
  }

  /** On this very input, from this very state, the loop ends if and only if every full buffer that
      comes up makes progress after some number of calls. */
  lemma SettlesHereIff(c: Codec, size: nat, d: Delivery)
    requires Fits(c, size, d)
    ensures Settles(c, size, d) <==> AlwaysYields(c, size, d)
  {
    if AlwaysYields(c, size, d) {
      var n := YieldingEnds(c, size, d);
    }
    if m: nat :| Ends(c, size, d, m) {
      forall n: nat ensures Yields(c, size, Passes(c, size, d, n)) {
        EndsYield(c, size, d, n, m);
      }
    }
  }

  lemma EndsYield(c: Codec, size: nat, d: Delivery, n: nat, m: nat)
    requires Fits(c, size, d) && Ends(c, size, d, m)
    ensures Yields(c, size, Passes(c, size, d, n))
  {
    hide Pass, Sane, Progress;
    var e := Passes(c, size, d, n);
    if !Yields(c, size, e) {
      EndedStays(c, size, d, m, Max(n, m));
      PassesAdd(c, size, d, n, Max(n, m) - n);
      NeverEnds(c, size, e, Max(n, m) - n);
      assert false;
    }
  }

  lemma NeverEnds(c: Codec, size: nat, d: Delivery, n: nat)
    requires Fits(c, size, d) && !Yields(c, size, d)
    ensures !Ends(c, size, d, n)
  {
    hide Pass, Sane, Progress;
    if n > 0 {
      var full, e := Filled(size, d), Pass(c, size, d);
      assert !Progress(c, Retried(full, 0));
      StalledPass(c, size, d);
      forall j: nat ensures !Progress(c, Retried(e.state, j)) {
        StillStalled(c, full, e.state, j);
      }
      Stalls(c, size, e, n - 1);
    }
  }

  lemma {:induction false} YieldingEnds(c: Codec, size: nat, d: Delivery) returns (n: nat)
    requires Fits(c, size, d) && AlwaysYields(c, size, d)
    ensures Ends(c, size, d, n)
    decreases Work(d)
  {
    hide Pass, Sane, Progress, AlwaysYields;
    if d.rest == [] {
      n := 0;
    } else if |d.state.held| + |d.rest| < size {
      n := 1;
      ShortEnds(c, size, d.state, d.rest, n);
    } else if |d.state.held| + |d.rest| == size {
      n := 1;
      ExactEnds(c, size, d);
    } else {
      var j := SomeTry(c, size, d);
      n := StalledEnds(c, size, d, j);
    }
  }

  lemma ExactEnds(c: Codec, size: nat, d: Delivery)
    requires Fits(c, size, d) && |d.state.held| + |d.rest| == size && d.rest != []
    ensures Ends(c, size, d, 1)
  {
    assert Passes(c, size, d, 1) == Passes(c, size, Pass(c, size, d), 0);
  }

  lemma SomeTry(c: Codec, size: nat, d: Delivery) returns (j: nat)
    requires Fits(c, size, d) && AlwaysYields(c, size, d) && d.rest != [] && size < |d.state.held| + |d.rest|
    ensures Progress(c, Retried(Filled(size, d), j))
  {
    assert Passes(c, size, d, 0) == d;
    j :| Progress(c, Retried(Filled(size, d), j));
  }

  lemma {:induction false} StalledEnds(c: Codec, size: nat, d: Delivery, j: nat) returns (n: nat)
    requires Fits(c, size, d) && AlwaysYields(c, size, d) && d.rest != [] && |d.state.held| + |d.rest| >= size
    requires Progress(c, Retried(Filled(size, d), j))
    ensures Ends(c, size, d, n)
    decreases Work(d), j
  {
    hide AlwaysYields, Sane, Pass, Progress;
    var full, e := Filled(size, d), Pass(c, size, d);
    var more: nat := 0;
    LaterYields(c, size, d);
    if Progress(c, full) {
      ProgressPass(c, size, d);
      more := YieldingEnds(c, size, e);
    } else {
      StalledPass(c, size, d);
      assert Passes(c, size, e, 0) == e;
      if e.rest != [] {
        NextTry(c, full, Filled(size, e), j);
        more := StalledEnds(c, size, e, j - 1);
      }
    }
    n := more + 1;
  }

  /** Whatever came before, a full buffer is used in the end. */
  ghost predicate Lively(c: Codec, size: nat) {
    forall s: Chunker :: |s.held| == size ==> exists j: nat :: Progress(c, Retried(s, j))
  }

  lemma LivelyYields(c: Codec, size: nat, d: Delivery)
    requires Fits(c, size, d) && Lively(c, size)
    ensures Yields(c, size, d)
  {
    assert d.rest != [] && size < |d.state.held| + |d.rest| ==> |Filled(size, d).held| == size;
  }

  /** Over all states, with any history of calls: the loop ends for every buffer level and every input
      if and only if every full buffer makes progress after some number of calls. */
  lemma SettlesIff(c: Codec, size: nat)
    requires Sane(c, size)
    ensures (forall d: Delivery :: |d.state.held| <= size ==> Settles(c, size, d)) <==> Lively(c, size)
  {
    hide Pass, Progress;
    if Lively(c, size) {
      forall d: Delivery | |d.state.held| <= size ensures Settles(c, size, d) {
        forall n: nat ensures Yields(c, size, Passes(c, size, d, n)) {
          LivelyYields(c, size, Passes(c, size, d, n));
        }
        SettlesHereIff(c, size, d);
      }
    } else {
      var s: Chunker :| |s.held| == size && forall j: nat :: !Progress(c, Retried(s, j));
      var d := Delivery(s, [0]);
      forall n: nat ensures !Ends(c, size, d, n) {
        Stalls(c, size, d, n);
      }
    }
  }

  /** A codec that uses nothing and never completes its initialisation. */
  const REFUSING: Codec := Codec((calls, b) => StartReply(0, false), (calls, b) => EncodeReply(0, []))

  /** With it, one byte more than the buffer holds keeps a new encoder in the loop for good. */
  lemma StallReachable(size: nat, data: seq<Byte>)
    requires size < |data|
    ensures Sane(REFUSING, size)
    ensures !Settles(REFUSING, size, Delivery(Chunker([], false, [], [], []), data))
  {
    var d := Delivery(Chunker([], false, [], [], []), data);
    forall n: nat ensures !Ends(REFUSING, size, d, n) {
      assert forall j: nat :: !Progress(REFUSING, Retried(Filled(size, d), j));
      NeverEnds(REFUSING, size, d, n);
    }
  }

  /** Each call on a full buffer makes progress. */
  ghost predicate Busy(c: Codec, size: nat) {
    forall s: Chunker :: |s.held| == size ==> Progress(c, s)
  }

  /** With such a codec every byte costs one pass at most, and the initialisation one more. */
  lemma {:induction false} BusyEnds(c: Codec, size: nat, d: Delivery)
    requires Fits(c, size, d) && Busy(c, size)
    ensures Ends(c, size, d, Work(d))
    decreases Work(d)
  {
    hide Pass, Sane, Progress;
    if d.rest == [] {
      NothingLeft(c, size, d, Work(d));
    } else if |d.state.held| + |d.rest| < size {
      ShortEnds(c, size, d.state, d.rest, Work(d));
    } else {
      var e := Pass(c, size, d);
      ProgressPass(c, size, d);
      BusyEnds(c, size, e);
      EndedStays(c, size, e, Work(e), Work(d) - 1);
    }
  }
}
