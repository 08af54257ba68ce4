/** The decoder's input side over whole sessions, with frames arriving between any two steps of the
    handler: what always holds, when the flow of credits can stop for good, and what a second session
    inherits from the first. */
module DecoderRuns {
  import opened Machine
  import opened DecoderModel

  predicate LegalRun(s: State, es: seq<Event>)
    decreases |es|
  {
    es != [] ==> Legal(s, es[0]) && LegalRun(Step(s, es[0]), es[1..])
  }

  function Run(s: State, es: seq<Event>): State
    requires LegalRun(s, es)
    decreases |es|
  {
    if es == [] then s else Run(Step(s, es[0]), es[1..])
  }

  lemma Before(s: State, e: Event, es: seq<Event>)
    requires Legal(s, e) && LegalRun(Step(s, e), es)
    ensures LegalRun(s, [e] + es) && Run(s, [e] + es) == Run(Step(s, e), es)
  {
    assert ([e] + es)[1..] == es;
  }

  lemma RunNone(s: State)
    ensures LegalRun(s, []) && Run(s, []) == s
  {
  }

  lemma RunAt(s: State, es: seq<Event>, i: nat)
    requires i < |es| && LegalRun(s, es[i..])
    ensures Legal(s, es[i]) && LegalRun(Step(s, es[i]), es[i + 1..])
    ensures Run(s, es[i..]) == Run(Step(s, es[i]), es[i + 1..])
  {
    assert es[i..][1..] == es[i + 1..];
  }

  /** The state after the events `i..j` of a run. */
  function Reach(s: State, es: seq<Event>, i: nat, j: nat): State
    requires i <= j <= |es| && LegalRun(s, es[i..])
    decreases j - i
  {
    if i == j then s else
      assert es[i..][1..] == es[i + 1..];
      Reach(Step(s, es[i]), es, i + 1, j)
  }

  lemma {:induction false} ReachStep(s: State, es: seq<Event>, i: nat, j: nat)
    requires i <= j < |es| && LegalRun(s, es[i..])
    ensures Legal(Reach(s, es, i, j), es[j]) && Reach(s, es, i, j + 1) == Step(Reach(s, es, i, j), es[j])
    decreases j - i
  {
    RunAt(s, es, i);
    if i < j {
      ReachStep(Step(s, es[i]), es, i + 1, j);
    }
  }

  lemma {:induction false} ReachIsRun(s: State, es: seq<Event>, i: nat, j: nat)
    requires i <= j <= |es| && LegalRun(s, es[i..])
    ensures LegalRun(s, es[i..j]) && Reach(s, es, i, j) == Run(s, es[i..j])
    decreases j - i
  {
    if i < j {
      RunAt(s, es, i);
      ReachIsRun(Step(s, es[i]), es, i + 1, j);
      assert es[i..j][1..] == es[i + 1..j];
    }
  }

  /** The stream and the credit bounds hold in every state of every legal session. */
  lemma {:induction false} RunKeepsInv(s: State, es: seq<Event>)
    requires Inv(s) && LegalRun(s, es)
    ensures Inv(Run(s, es))
    decreases |es|
  {
    hide Inv, Legal, Step;
    if es != [] {
      StepKeepsInv(s, es[0]);
      RunKeepsInv(Step(s, es[0]), es[1..]);
    }
  }

  /** After any session, and in the middle of it: the codec has used a prefix of what was received, the
      rest is at hand in order, and whatever the MCU may still send leaves a frame of the ring unused. */
  lemma SessionSafe(es: seq<Event>)
    requires LegalRun(InitState(), es)
    ensures var s := Run(InitState(), es);
            && s.consumed <= s.received
            && s.received[|s.consumed|..] == s.rest + s.ring
            && |s.ring| + s.requested <= 63 * 57
            && 57 <= BUFFER_SIZE - |s.ring|
  {
    InitInv();
    RunKeepsInv(InitState(), es);
    var s := Run(InitState(), es);
    assert s.consumed + s.rest + s.ring == s.consumed + (s.rest + s.ring);
  }

  // ---- Credits ----

  /** A grant always leaves at least 31 frames at hand or on their way, more than the 8 frames
      whose use asks for the next one. */
  lemma GrantSuffices(s: State)
    requires Inv(s) && Created(s) && Grant(s, true) != s
    ensures 8 * 57 < 31 * 57 <= |Grant(s, true).ring| + Grant(s, true).requested
  {
    UnitsFit(|s.ring|);
  }

  /** When the request for more is made, and for how much: if all granted data are in, the codec has used
      eight frames since the last request, no other session is being prepared, a channel is free and two
      frames of the ring are; for 31 frames while more than 32 are free, else for one less than the whole
      frames that are. */
  lemma GrantExact(s: State, channel: bool)
    requires Inv(s) && Created(s)
    ensures var t, free := Grant(s, channel), 64 * 57 - |s.ring|;
            var asks := channel && s.requested == 0 && s.dynamicConsumed >= 8 * 57 && !s.prepForNext && free >= 2 * 57;
            if asks
            then && t.dynamicConsumed == 0 && t.requested % 57 == 0
                 && (if free > 32 * 57 then t.requested == 31 * 57
                     else t.requested + 57 <= free < t.requested + 2 * 57)
            else t == s
  {
    UnitsFit(|s.ring|);
  }

  /** Until the codec is created the MCU has been granted 31 frames in all. */
  lemma {:induction false} OpeningCredit(s: State, es: seq<Event>)
    requires Inv(s) && LegalRun(s, es) && (!Created(s) ==> |s.received| + s.requested == 31 * 57)
    ensures !Created(Run(s, es)) ==> |Run(s, es).received| + Run(s, es).requested == 31 * 57
    decreases |es|
  {
    hide Inv;
    if es != [] {
      StepKeepsInv(s, es[0]);
      OpeningStep(s, es[0]);
      OpeningCredit(Step(s, es[0]), es[1..]);
    }
  }

  lemma OpeningStep(s: State, e: Event)
    requires Inv(s) && Legal(s, e) && (!Created(s) ==> |s.received| + s.requested == 31 * 57)
    ensures !Created(Step(s, e)) ==> |Step(s, e).received| + Step(s, e).requested == 31 * 57
  {
    hide Stream, Wrap, Units;
  }

  lemma OpeningGrant(es: seq<Event>)
    requires LegalRun(InitState(), es) && !Created(Run(InitState(), es))
    ensures |Run(InitState(), es).received| + Run(InitState(), es).requested == 31 * 57
  {
    InitInv();
    OpeningCredit(InitState(), es);
  }

  /** Once the next session is being prepared nothing more is asked for. */
  lemma {:induction false} PreparedNeverAsks(s: State, es: seq<Event>)
    requires s.prepForNext && LegalRun(s, es)
    ensures Run(s, es).prepForNext && Run(s, es).requested <= s.requested
    decreases |es|
  {
    if es != [] {
      PreparedStep(s, es[0]);
      PreparedNeverAsks(Step(s, es[0]), es[1..]);
    }
  }

  lemma PreparedStep(s: State, e: Event)
    requires s.prepForNext && Legal(s, e)
    ensures Step(s, e).prepForNext && Step(s, e).requested <= s.requested
  {
    hide Wrap, Units;
  }

  /** The first grant is enough to leave the buffering state. */
  lemma BufferingEnds(s: State)
    requires Inv(s) && !Created(s) && s.requested == 0
    ensures 16 * 57 <= s.total
  {
    assert s.received == s.ring;
  }

  /** Everything granted has arrived, a decode would return early, and no grant is about to be made. */
  predicate Stuck(s: State) {
    && s.phase == Decoding && s.requested == 0 && Idles(s)
    && (s.place == Resting || s.place == DecodeFill || (s.place == DecodeGrant && !Due(s)))
  }

  lemma StuckStep(s: State, e: Event)
    requires Inv(s) && Stuck(s) && Legal(s, e)
    ensures Stuck(Step(s, e)) && Step(s, e).consumed == s.consumed
  {
    hide Wrap, Units, Stream;
    match e
    case Frame(data) => assert s.ring + data == s.ring;
    case PrepareForNext =>
    case Handler(x) =>
  }

  lemma {:induction false} StuckForever(s: State, es: seq<Event>)
    requires Inv(s) && Stuck(s) && LegalRun(s, es)
    ensures Stuck(Run(s, es)) && Run(s, es).consumed == s.consumed
    decreases |es|
  {
    hide Inv, Stuck, Legal, Step;
    if es != [] {
      StuckStep(s, es[0]);
      StepKeepsInv(s, es[0]);
      StuckForever(Step(s, es[0]), es[1..]);
    }
  }

  /** When a decode call returns early: nothing was used in the last one, which was not a start either,
      and there is nothing to add to what the codec had then. */
  lemma EarlyReturnIff(s: State, x: Answers)
    requires Inv(s) && s.place == DecodeFill && Fits(s, x)
    ensures Next(s, x).place == Resting <==>
            s.at == 0 && !s.ignoreFirst && (s.ring == [] || |s.rest| == s.inputSize)
    ensures Next(s, x).place == Resting || (Next(s, x).place == DecodeUse && !Next(s, x).ignoreFirst)
  {
  }

  // ---- A codec that uses what it is given ----

  /** Does a grant come during this run? */
  predicate GrantComes(s: State, es: seq<Event>)
    requires LegalRun(s, es)
    decreases |es|
  {
    s.requested > 0 || (es != [] && GrantComes(Step(s, es[0]), es[1..]))
  }

  /** A step of the handler in which a channel is free, and the codec uses something if it is given
      anything. */
  predicate Eager(s: State, e: Event) {
    e.Handler? && e.x.channel && (s.place == DecodeUse && s.rest != [] ==> e.x.used > 0)
  }

  predicate EagerRun(s: State, es: seq<Event>)
    requires LegalRun(s, es)
    decreases |es|
  {
    es != [] ==> Eager(s, es[0]) && EagerRun(Step(s, es[0]), es[1..])
  }

  /** With the handler in its loop of decode calls, and nothing more to arrive. */
  predicate Waiting(s: State) {
    s.phase == Decoding && s.requested == 0 && !s.prepForNext && !Stuck(s)
  }

  /** How many steps of the handler are left at most before a grant: five for each byte at hand, and
      those of the call in which the handler is. */
  function StepsLeft(s: State): nat {
    5 * (|s.ring| + |s.rest|) +
    match s.place
    case DecodeUse => if s.rest == [] then (if s.ring == [] then 1 else 4) else 0
    case DecodeGrant => if s.ring == [] && s.rest == [] then 0 else 3
    case DecodeFill => if s.ring == [] && s.rest == [] then 2 else 1
    case _ => if s.ring == [] && s.rest == [] then 3 else 2
  }

  lemma WaitingFill(s: State, x: Answers)
    requires Inv(s) && Waiting(s) && s.place == DecodeFill && Fits(s, x)
    ensures Waiting(Next(s, x)) && StepsLeft(Next(s, x)) < StepsLeft(s)
  {
    hide Wrap, Units, Stream;
    FillKeeps(s);
  }

  lemma WaitingUse(s: State, x: Answers)
    requires Inv(s) && Waiting(s) && s.place == DecodeUse && Fits(s, x) && (s.rest != [] ==> x.used > 0)
    ensures Waiting(Next(s, x)) && StepsLeft(Next(s, x)) < StepsLeft(s)
  {
    hide Stream, Wrap, Units;
    UnitsFit(|s.ring|);
    WrapSmall(s.dynamicConsumed + x.used);
  }

  lemma WaitingGrant(s: State, x: Answers)
    requires Inv(s) && Waiting(s) && (s.place == DecodeGrant || s.place == Resting) && x.channel
    ensures Next(s, x).requested > 0 || (Waiting(Next(s, x)) && StepsLeft(Next(s, x)) < StepsLeft(s))
  {
    hide Stream, Wrap;
    UnitsFit(|s.ring|);
  }

  lemma EagerStep(s: State, e: Event)
    requires Inv(s) && Waiting(s) && Legal(s, e) && Eager(s, e)
    ensures Step(s, e).requested > 0 || (Waiting(Step(s, e)) && StepsLeft(Step(s, e)) < StepsLeft(s))
  {
    hide Waiting, StepsLeft, Next, Stream, Wrap;
    assert s.phase == Decoding by {
      WaitingDecodes(s);
    }
    var x := e.x;
    if s.place == DecodeFill {
      WaitingFill(s, x);
    } else if s.place == DecodeUse {
      WaitingUse(s, x);
    } else {
      WaitingGrant(s, x);
    }
  }

  lemma WaitingDecodes(s: State)
    requires Waiting(s)
    ensures s.phase == Decoding && s.requested == 0
  {
  }

  /** Whatever such a codec does, it is granted more before it runs out of data. */
  lemma {:induction false} EagerGrants(s: State, es: seq<Event>)
    requires Inv(s) && Waiting(s) && LegalRun(s, es) && EagerRun(s, es) && StepsLeft(s) < |es|
    ensures GrantComes(s, es)
    decreases |es|
  {
    hide Inv, Waiting, Legal, Step, StepsLeft, Eager;
    EagerStep(s, es[0]);
    StepKeepsInv(s, es[0]);
    if Step(s, es[0]).requested > 0 {
      assert GrantComes(Step(s, es[0]), es[1..]);
    } else {
      EagerGrants(Step(s, es[0]), es[1..]);
    }
  }

  /** A codec that uses all it is given, and a free channel. */
  function Greedy(s: State): Event {
    Handler(Answers(1, [], true, |s.rest|, true))
  }

  lemma GreedyEager(s: State)
    requires Inv(s) && Waiting(s)
    ensures Legal(s, Greedy(s)) && Eager(s, Greedy(s))
  {
  }

  lemma {:induction false} GreedyGrants(s: State) returns (es: seq<Event>)
    requires Inv(s) && Waiting(s)
    ensures LegalRun(s, es) && Run(s, es).requested > 0
    decreases StepsLeft(s)
  {
    hide Inv, Waiting, Legal, Step, StepsLeft, Greedy, Eager;
    GreedyEager(s);
    EagerStep(s, Greedy(s));
    var t, rest := Step(s, Greedy(s)), [];
    if t.requested <= 0 {
      StepKeepsInv(s, Greedy(s));
      rest := GreedyGrants(t);
    }
    es := [Greedy(s)] + rest;
    Before(s, Greedy(s), rest);
  }

  /** With all granted data received, the MCU can be asked for more if and only if the handler is not
      stuck: where the next decode takes its early return, the session ends for good. */
  lemma GrantPossibleIff(s: State)
    requires Inv(s) && s.phase == Decoding && s.requested == 0 && !s.prepForNext
    ensures (exists es :: LegalRun(s, es) && Run(s, es).requested > 0) <==> !Stuck(s)
  {
    if Stuck(s) {
      forall es | LegalRun(s, es) ensures Run(s, es).requested == 0 {
        StuckForever(s, es);
      }
    } else {
      var es := GreedyGrants(s);
    }
  }

  // ---- How a session can get stuck ----

  /** The first grant, sent in full. */
  const FILLED: seq<Byte> := Zeros(FIRST_GRANT)

  lemma FirstArrival()
    ensures |FILLED| == FIRST_GRANT
    ensures Legal(InitState(), Frame(FILLED))
    ensures var s := Receive(InitState(), FILLED);
            s == State(Resting, Buffering, FILLED, [], 0, 0, 0, true, 0, FIRST_GRANT, false, false, 1, FILLED, [])
  {
    WrapSmall(FIRST_GRANT);
    assert [] + FILLED == FILLED;
  }

  /** No step of the handler finds the IPC channels all taken. */
  predicate ChannelsFree(es: seq<Event>) {
    forall i :: 0 <= i < |es| && es[i].Handler? ==> es[i].x.channel
  }

  /** What the codec reports in a step in which it is called. */
  function Reports(used: nat, channel: bool): Event {
    Handler(Answers(1, [], true, used, channel))
  }

  /** A decode call that nothing interrupts. */
  function Decoded(s: State, used: nat, channel: bool): State
    requires |s.rest| <= s.inputSize && used <= |Fill(s).rest|
  {
    Grant(Use(Fill(s).(ignoreFirst := false, at := 0), used).(place := DecodeGrant), channel).(place := Resting)
  }

  lemma DecodeCall(s: State, used: nat, channel: bool, more: seq<Event>) returns (es: seq<Event>)
    requires s.place == DecodeFill && |s.rest| <= s.inputSize && !Idles(s) && used <= |Fill(s).rest|
    requires LegalRun(Decoded(s, used, channel), more)
    ensures LegalRun(s, es) && Run(s, es) == Run(Decoded(s, used, channel), more)
    ensures channel && ChannelsFree(more) ==> ChannelsFree(es)
  {
    hide Fill, Due, Taken, Run, LegalRun;
    var e := Reports(used, channel);
    var t := Step(s, e);
    var u := Step(t, e);
    Before(u, e, more);
    Before(t, e, [e] + more);
    Before(s, e, [e] + ([e] + more));
    es := [e] + ([e] + ([e] + more));
  }

  /** A successful start that nothing interrupts, up to the decode call. */
  function Started(s: State, used: nat, channel: bool): State
    requires |s.rest| <= s.inputSize && used <= |Fill(s).rest|
  {
    Grant(Use(Fill(s), used).(place := StartGrant(true)), channel).(
      ignoreFirst := used == 0, phase := Decoding, place := DecodeFill)
  }

  lemma StartCall(s: State, used: nat, channel: bool, more: seq<Event>) returns (es: seq<Event>)
    requires s.place == StartFill && |s.rest| <= s.inputSize && used <= |Fill(s).rest|
    requires LegalRun(Started(s, used, channel), more)
    ensures LegalRun(s, es) && Run(s, es) == Run(Started(s, used, channel), more)
    ensures channel && ChannelsFree(more) ==> ChannelsFree(es)
  {
    hide Fill, Run, LegalRun, Due, Taken;
    var e := Reports(used, channel);
    var t := Step(s, e);
    var u := Step(t, e);
    var v := Step(u, e);
    Before(v, e, more);
    Before(u, e, [e] + more);
    Before(t, e, [e] + ([e] + more));
    Before(s, e, [e] + ([e] + ([e] + more)));
    es := [e] + ([e] + ([e] + ([e] + more)));
  }

  /** The state in which the first start finds the first grant. */
  function Opened(size: int): State {
    Receive(InitState(), FILLED).(phase := Initiating, inputSize := size, place := StartFill)
  }

  lemma OpenSession(size: int, more: seq<Event>) returns (es: seq<Event>)
    requires 0 < size < TOP_BIT && LegalRun(Opened(size), more)
    ensures LegalRun(InitState(), es) && Run(InitState(), es) == Run(Opened(size), more)
    ensures ChannelsFree(more) ==> ChannelsFree(es)
  {
    hide Receive, Wrap, FILLED, Run, LegalRun;
    FirstArrival();
    var x := Handler(Answers(size, [], true, 0, true));
    var s := Receive(InitState(), FILLED);
    var t := Step(s, x);
    Before(t, x, more);
    Before(s, x, [x] + more);
    Before(InitState(), Frame(FILLED), [x] + ([x] + more));
    es := [Frame(FILLED)] + ([x] + ([x] + more));
  }

  /** Two calls that find no free channel: the codec takes all that was granted in the first, nothing
      is left to take in the second. */
  lemma StarvationReachable() returns (es: seq<Event>)
    ensures LegalRun(InitState(), es) && Stuck(Run(InitState(), es)) && Run(InitState(), es).consumed == FILLED
  {
    hide Run, LegalRun, FILLED, Receive, Wrap;
    FirstArrival();
    var s := Opened(2000);
    var t := Started(s, 0, false);
    assert t.rest == FILLED && t.ring == [] && t.consumed == [];
    var u := Decoded(t, FIRST_GRANT, false);
    assert u.rest == [] && u.ring == [] && u.consumed == FILLED && u.at == FIRST_GRANT;
    var again := Reports(0, false);
    var v := Step(u, again);
    var w := Decoded(v, 0, false);
    assert w.rest == [] && w.ring == [] && w.at == 0 && w.consumed == FILLED;
    RunNone(w);
    es := DecodeCall(v, 0, false, []);
    Before(u, again, es);
    es := DecodeCall(t, FIRST_GRANT, false, [again] + es);
    es := StartCall(s, 0, false, es);
    es := OpenSession(2000, es);
  }

  // ---- Free channels ----

  /** A codec may also refuse what it is given. However large its buffer is, if it uses nothing in the
      first two calls then it is not called again, whatever is left in the ring. */
  lemma RefusalReachable(size: int) returns (es: seq<Event>)
    requires 0 < size < TOP_BIT
    ensures LegalRun(InitState(), es) && ChannelsFree(es)
    ensures var s := Run(InitState(), es);
            Stuck(s) && !s.prepForNext && |s.ring| == FIRST_GRANT - Min(size, FIRST_GRANT)
  {
    hide Run, LegalRun, FILLED, Receive, Wrap;
    FirstArrival();
    WrapSmall(0);
    var s := Opened(size);
    var t := Started(s, 0, true);
    UsesNothing(s);
    RunNone(Decoded(t, 0, true));
    es := DecodeCall(t, 0, true, []);
    es := StartCall(s, 0, true, es);
    es := OpenSession(size, es);
  }

  lemma UsesNothing(s: State)
    requires s.rest == [] && 0 < s.inputSize && s.dynamicConsumed == 0
    ensures var n, t := Min(|s.ring|, s.inputSize), Started(s, 0, true);
            && t.rest == s.ring[..n] && t.ring == s.ring[n..] && t.ignoreFirst && t.dynamicConsumed == 0
            && Decoded(t, 0, true) == t.(ignoreFirst := false, place := Resting, at := 0)
  {
    WrapSmall(0);
    var t := Started(s, 0, true);
    assert t.rest == s.ring[..Taken(s)] && t.ring == s.ring[Taken(s)..];
    var u := Decoded(t, 0, true);
    assert u.rest == t.rest && u.ring == t.ring && u.consumed == t.consumed;
  }

  /** With nothing in the ring and nothing to come, the next grant is not due yet when a decode starts. */
  predicate Flowing(s: State) {
    && (s.place.StartEnd? || s.place == DecodeFill || (s.place == Resting && s.phase == Decoding))
    && s.requested == 0 && !s.prepForNext && s.ring == []
    ==> s.dynamicConsumed < REQUEST_THD
  }

  lemma GrantFlows(s: State, x: Answers)
    requires Inv(s) && (s.place.StartGrant? || s.place == DecodeGrant) && x.channel
    ensures Flowing(Next(s, x))
  {
    hide Stream, Wrap;
    UnitsFit(|s.ring|);
  }

  lemma StepFlows(s: State, e: Event)
    requires Inv(s) && Legal(s, e) && Flowing(s) && (e.Handler? ==> e.x.channel)
    ensures Flowing(Step(s, e))
  {
    hide Stream, Wrap, Units;
    if e.Handler? && (s.place.StartGrant? || s.place == DecodeGrant) {
      GrantFlows(s, e.x);
    }
  }

  lemma {:induction false} RunFlows(s: State, es: seq<Event>)
    requires Inv(s) && Flowing(s) && LegalRun(s, es) && ChannelsFree(es)
    ensures Inv(Run(s, es)) && Flowing(Run(s, es))
    decreases |es|
  {
    hide Inv, Flowing, Step, Legal;
    if es != [] {
      StepFlows(s, es[0]);
      StepKeepsInv(s, es[0]);
      RunFlows(Step(s, es[0]), es[1..]);
    }
  }

  /** The codec was given a full buffer, or more than 23 frames, and used nothing of it. */
  predicate Refused(s: State) {
    s.at == 0 && (|s.rest| == s.inputSize || 23 * FRAME < |s.rest|)
  }

  /** With free channels the flow of credits goes on unless the codec refuses its data: from every other
      state of a session a grant can come, and comes to a codec that uses what it is given. */
  lemma FlowGoesOn(es: seq<Event>)
    requires LegalRun(InitState(), es) && ChannelsFree(es)
    ensures var s := Run(InitState(), es);
            s.phase == Decoding && s.requested == 0 && !s.prepForNext && !Refused(s) ==>
            && !Stuck(s) && (exists more :: LegalRun(s, more) && Run(s, more).requested > 0)
            && forall more :: LegalRun(s, more) && EagerRun(s, more) && StepsLeft(s) < |more| ==> GrantComes(s, more)
  {
    InitInv();
    RunFlows(InitState(), es);
    var s := Run(InitState(), es);
    if s.phase == Decoding && s.requested == 0 && !s.prepForNext && !Refused(s) {
      NotRefused(s);
      GrantPossibleIff(s);
      forall more | LegalRun(s, more) && EagerRun(s, more) && StepsLeft(s) < |more| ensures GrantComes(s, more) {
        EagerGrants(s, more);
      }
    }
  }

  lemma NotRefused(s: State)
    requires Inv(s) && Flowing(s) && s.phase == Decoding && s.requested == 0 && !s.prepForNext && !Refused(s)
    ensures !Stuck(s)
  {
    hide Stream, Wrap;
    UnitsFit(|s.ring|);
  }

  // ---- A second session ----

  /** The invariant of a new session holds if and only if nothing was left over. */
  lemma RestartCleanIff(s: State)
    requires (Inv(s) && s.place == Resting) || s == Cleared()
    ensures Inv(Restart(s)) <==> s.rest == []
  {
  }

  /** A second session up to its first start: the first grant in full, then a codec buffer of which the
      leftover level makes `content` data. */
  function Reopened(s: State, size: int, data: seq<Byte>, content: seq<Byte>): State {
    Restart(s).(phase := Initiating, inputSize := size, place := StartFill, rest := content, ring := data,
                received := data, total := FIRST_GRANT, requested := 0, allReceived := true, posted := s.posted + 1)
  }

  lemma Reopen(s: State, size: int, data: seq<Byte>, content: seq<Byte>, more: seq<Event>) returns (es: seq<Event>)
    requires Inv(s) && s.place == Resting && |data| == FIRST_GRANT && |content| == |s.rest|
    requires s.at + |s.rest| <= size && 0 < size < TOP_BIT && LegalRun(Reopened(s, size, data, content), more)
    ensures LegalRun(Restart(s), es) && Run(Restart(s), es) == Run(Reopened(s, size, data, content), more)
  {
    hide Run, LegalRun, Wrap, Core;
    WrapSmall(FIRST_GRANT);
    var x := Handler(Answers(size, content, false, 0, false));
    var r := Step(Restart(s), Frame(data));
    assert [] + data == data;
    var t := Step(r, x);
    Before(t, x, more);
    es := [x] + more;
    Before(r, x, es);
    es := [x] + es;
    Before(Restart(s), Frame(data), es);
    es := [Frame(data)] + es;
  }

  /** A codec that uses one byte: the first one of the new session's buffer, which holds what was in
      memory and not what was received. */
  lemma LeftoverConsumed(s: State) returns (es: seq<Event>)
    requires Inv(s) && s.place == Resting && s.rest != []
    ensures LegalRun(Restart(s), es)
    ensures var t := Run(Restart(s), es); t.consumed == [0] && t.received != [] && t.received[0] == 1
  {
    hide Run, LegalRun, Wrap, Taken;
    LeftoverSize(s);
    var data, content := [1] + Zeros(FIRST_GRANT - 1), Zeros(|s.rest|);
    var r := Reopened(s, s.at + |s.rest|, data, content);
    var x := Reports(1, false);
    var t := Step(r, x);
    assert t.rest[..1] == [0];
    var u := Step(t, x);
    assert u.consumed == [] + [0] && u.received == data;
    RunNone(u);
    Before(t, x, []);
    es := [x] + [];
    Before(r, x, es);
    es := [x] + es;
    es := Reopen(s, s.at + |s.rest|, data, content, es);
  }

  lemma LeftoverSize(s: State)
    requires Inv(s) && s.place == Resting && s.rest != []
    ensures 0 < s.at + |s.rest| < TOP_BIT
  {
  }

  /** In every second session the codec uses a prefix of what that session received, if and only if
      the first session left nothing unused in the codec's buffer. */
  lemma RestartStreamIff(s: State)
    requires Inv(s) && s.place == Resting
    ensures (forall es :: LegalRun(Restart(s), es) ==> Run(Restart(s), es).consumed <= Run(Restart(s), es).received)
            <==> s.rest == []
  {
    if s.rest == [] {
      RestartCleanIff(s);
      forall es | LegalRun(Restart(s), es)
        ensures Run(Restart(s), es).consumed <= Run(Restart(s), es).received
      {
        RunKeepsInv(Restart(s), es);
        var t := Run(Restart(s), es);
        assert t.consumed + t.rest + t.ring == t.consumed + (t.rest + t.ring);
      }
    } else {
      var es := LeftoverConsumed(s);
      var t := Run(Restart(s), es);
      assert t.consumed[0] != t.received[0];
    }
  }

  /** Two sessions that differ in what is left over from before and not looked at any more, and in the
      messages inserted before. */
  predicate Alike(s: State, t: State, earlier: nat) {
    && s == t.(posted := t.posted + earlier, at := s.at, ignoreFirst := s.ignoreFirst, inputSize := s.inputSize)
    && (Created(s) ==> s.inputSize == t.inputSize)
    && (!Created(s) ==> s.rest == [])
    && (s.phase == Decoding || s.place.StartGrant? || s.place.StartEnd? ==> s.at == t.at)
    && (s.phase == Decoding || s.place == StartEnd(true) ==> s.ignoreFirst == t.ignoreFirst)
  }

  lemma AlikeFill(s: State, t: State, earlier: nat, x: Answers)
    requires Placed(s) && Alike(s, t, earlier) && (s.place == StartFill || s.place == DecodeFill)
    ensures Fits(s, x) <==> Fits(t, x)
    ensures Fits(s, x) ==> Placed(Next(s, x)) && Alike(Next(s, x), Next(t, x), earlier)
  {
    hide Wrap, Units, Due;
  }

  lemma AlikeUse(s: State, t: State, earlier: nat, x: Answers)
    requires Placed(s) && Alike(s, t, earlier) && (s.place == StartUse || s.place == DecodeUse)
    ensures Fits(s, x) <==> Fits(t, x)
    ensures Fits(s, x) ==> Placed(Next(s, x)) && Alike(Next(s, x), Next(t, x), earlier)
  {
    hide Wrap, Units, Due, Taken;
  }

  lemma AlikeStartGrant(s: State, t: State, earlier: nat, x: Answers)
    requires Placed(s) && Alike(s, t, earlier) && s.place.StartGrant?
    ensures Fits(s, x) <==> Fits(t, x)
    ensures Fits(s, x) ==> Placed(Next(s, x)) && Alike(Next(s, x), Next(t, x), earlier)
  {
    hide Wrap, Units, Taken, Fill, Use, Idles;
  }

  lemma AlikeDecodeGrant(s: State, t: State, earlier: nat, x: Answers)
    requires Placed(s) && Alike(s, t, earlier) && s.place == DecodeGrant
    ensures Fits(s, x) <==> Fits(t, x)
    ensures Fits(s, x) ==> Placed(Next(s, x)) && Alike(Next(s, x), Next(t, x), earlier)
  {
    hide Wrap, Units, Taken, Fill, Use, Idles;
  }

  lemma AlikeEntry(s: State, t: State, earlier: nat, x: Answers)
    requires Placed(s) && Alike(s, t, earlier) && s.place == Resting
    ensures Fits(s, x) <==> Fits(t, x)
    ensures Fits(s, x) ==> Placed(Next(s, x)) && Alike(Next(s, x), Next(t, x), earlier)
  {
    hide Wrap, Units, Taken, Fill, Use, Grant, Idles;
  }

  lemma AlikeCheck(s: State, t: State, earlier: nat, x: Answers)
    requires Placed(s) && Alike(s, t, earlier) && s.place == Checking
    ensures Fits(s, x) <==> Fits(t, x)
    ensures Fits(s, x) ==> Placed(Next(s, x)) && Alike(Next(s, x), Next(t, x), earlier)
  {
    hide Wrap, Units, Taken, Fill, Use, Grant, Idles;
  }

  lemma AlikeEnd(s: State, t: State, earlier: nat, x: Answers)
    requires Placed(s) && Alike(s, t, earlier) && s.place.StartEnd?
    ensures Fits(s, x) <==> Fits(t, x)
    ensures Fits(s, x) ==> Placed(Next(s, x)) && Alike(Next(s, x), Next(t, x), earlier)
  {
    hide Wrap, Units, Taken, Fill, Use, Grant, Idles;
  }

  lemma AlikeArrival(s: State, t: State, earlier: nat, e: Event)
    requires Placed(s) && Alike(s, t, earlier) && !e.Handler?
    ensures Legal(s, e) <==> Legal(t, e)
    ensures Legal(s, e) ==> Placed(Step(s, e)) && Alike(Step(s, e), Step(t, e), earlier)
  {
    hide Wrap, Next, Fits;
  }

  lemma AlikeStep(s: State, t: State, earlier: nat, e: Event)
    requires Placed(s) && Alike(s, t, earlier)
    ensures Legal(s, e) <==> Legal(t, e)
    ensures Legal(s, e) ==> Placed(Step(s, e)) && Alike(Step(s, e), Step(t, e), earlier)
  {
    hide Placed, Alike, Next, Fits, Receive;
    if e.Handler? {
      match s.place {
        case StartFill => AlikeFill(s, t, earlier, e.x);
        case DecodeFill => AlikeFill(s, t, earlier, e.x);
        case StartUse => AlikeUse(s, t, earlier, e.x);
        case DecodeUse => AlikeUse(s, t, earlier, e.x);
        case StartGrant(_) => AlikeStartGrant(s, t, earlier, e.x);
        case DecodeGrant => AlikeDecodeGrant(s, t, earlier, e.x);
        case Resting => AlikeEntry(s, t, earlier, e.x);
        case Checking => AlikeCheck(s, t, earlier, e.x);
        case StartEnd(_) => AlikeEnd(s, t, earlier, e.x);
      }
    } else {
      AlikeArrival(s, t, earlier, e);
    }
  }

  lemma {:induction false} AlikeRun(s: State, t: State, earlier: nat, es: seq<Event>)
    requires Placed(s) && Alike(s, t, earlier)
    ensures LegalRun(s, es) <==> LegalRun(t, es)
    ensures LegalRun(s, es) ==> Alike(Run(s, es), Run(t, es), earlier)
    decreases |es|
  {
    hide Placed, Alike, Legal, Step;
    if es != [] {
      AlikeStep(s, t, earlier, es[0]);
      if Legal(s, es[0]) {
        AlikeRun(Step(s, es[0]), Step(t, es[0]), earlier, es[1..]);
      }
    }
  }

  /** A second session after one that left nothing unused goes as the first one: the same events are
      legal, and the same bytes are received, used, at hand and asked for. */
  lemma CleanRestartIsFirst(s: State, es: seq<Event>)
    requires Inv(s) && s.place == Resting && s.rest == []
    ensures LegalRun(Restart(s), es) <==> LegalRun(InitState(), es)
    ensures LegalRun(InitState(), es) ==>
            var t, u := Run(Restart(s), es), Run(InitState(), es);
            && t.received == u.received && t.consumed == u.consumed && t.rest == u.rest && t.ring == u.ring
            && t.requested == u.requested && t.phase == u.phase && t.place == u.place
            && t.prepForNext == u.prepForNext && t.posted == u.posted + s.posted
  {
    AlikeRun(Restart(s), InitState(), s.posted, es);
  }

  lemma LeftoverReachable() returns (es: seq<Event>)
    ensures LegalRun(InitState(), es) && Run(InitState(), es).place == Resting && Run(InitState(), es).rest != []
  {
    hide Run, LegalRun, FILLED, Receive, Wrap;
    FirstArrival();
    WrapSmall(0);
    var s := Opened(2000);
    UsesNothing(s);
    var t := Started(s, 0, true);
    RunNone(Decoded(t, 0, true));
    es := DecodeCall(t, 0, true, []);
    es := StartCall(s, 0, true, es);
    es := OpenSession(2000, es);
  }
}
