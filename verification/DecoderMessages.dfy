/** The messages that call the decoder's handler: when the decoder inserts one, and that those it inserts
    suffice until it decodes. From then on the playback queue asks for the calls. */
module DecoderMessages {
  import opened Machine
  import opened DecoderModel
  import opened DecoderRuns

  // ---- The first message ----

  predicate NoHandler(es: seq<Event>) {
    forall i :: 0 <= i < |es| ==> !es[i].Handler?
  }

  /** One message for the first 16 frames, in the reception that completes them. */
  predicate Woken(s: State) {
    && s.place == Resting && !Created(s)
    && (if |s.received| >= 16 * 57 then s.phase == Buffering && s.posted == 1 else s.phase == Idle && s.posted == 0)
  }

  lemma WokenStep(s: State, e: Event)
    requires Inv(s) && Woken(s) && Legal(s, e) && !e.Handler?
    ensures Woken(Step(s, e))
  {
    hide Wrap;
    if e.Frame? {
      assert s.received == s.ring;
      WrapSmall(|s.received|);
      WrapSmall(|s.received| + |e.data|);
    }
  }

  lemma {:induction false} WokenRun(s: State, es: seq<Event>)
    requires Inv(s) && Woken(s) && LegalRun(s, es) && NoHandler(es)
    ensures Woken(Run(s, es))
    decreases |es|
  {
    hide Inv, Woken, Legal, Step;
    if es != [] {
      WokenStep(s, es[0]);
      StepKeepsInv(s, es[0]);
      WokenRun(Step(s, es[0]), es[1..]);
    }
  }

  /** Before the handler first runs, exactly one message has been inserted if 16 frames have been
      received, and none before. */
  lemma FirstMessageIff(es: seq<Event>)
    requires LegalRun(InitState(), es) && NoHandler(es)
    ensures var s := Run(InitState(), es); s.posted == if |s.received| >= 16 * 57 then 1 else 0
  {
    InitInv();
    WokenRun(InitState(), es);
  }

  // ---- Later messages ----

  /** The events let the handler return, and no more than that. */
  predicate Returns(s: State, es: seq<Event>)
    requires LegalRun(s, es)
    decreases |es|
  {
    if s.place == Resting then es == [] else es != [] && Returns(Step(s, es[0]), es[1..])
  }

  /** One call of the handler, with whatever interrupts it. */
  predicate Call(s: State, es: seq<Event>)
    requires LegalRun(s, es)
  {
    s.place == Resting && es != [] && es[0].Handler? && Returns(Step(s, es[0]), es[1..])
  }

  predicate Retries(s: State) {
    s.phase == Initiating && !s.prepForNext
  }

  lemma ReturningStep(s: State, e: Event)
    requires Placed(s) && s.place != Resting && Legal(s, e)
    ensures Placed(Step(s, e)) && Step(s, e).phase != Idle
    ensures Step(s, e).posted == s.posted + if Step(s, e).place == Resting && Retries(Step(s, e)) then 1 else 0
  {
    hide Wrap, Units;
  }

  lemma {:induction false} ReturnPosts(s: State, es: seq<Event>)
    requires Placed(s) && s.place != Resting && LegalRun(s, es) && Returns(s, es)
    ensures Run(s, es).place == Resting && Run(s, es).phase != Idle
    ensures Run(s, es).posted == s.posted + if Retries(Run(s, es)) then 1 else 0
    decreases |es|
  {
    hide Placed, Legal, Step;
    ReturningStep(s, es[0]);
    var t := Step(s, es[0]);
    if t.place == Resting {
      assert es[1..] == [];
    } else {
      ReturnPosts(t, es[1..]);
    }
  }

  /** A call inserts a message if and only if it leaves the codec uninitialised and no other session is
      being prepared. */
  lemma CallPosts(s: State, es: seq<Event>)
    requires Placed(s) && LegalRun(s, es) && Call(s, es)
    ensures var t := Run(s, es);
            && t.place == Resting && t.phase != Idle
            && t.posted == s.posted + if t.phase == Initiating && !t.prepForNext then 1 else 0
  {
    hide Run, LegalRun, Returns;
    assert es[0..] == es;
    RunAt(s, es, 0);
    ReturnPosts(Step(s, es[0]), es[1..]);
  }

  // ---- Whether the codec is initialised ----

  /** Has the codec reported in this run that it is? */
  predicate ReportsDone(s: State, es: seq<Event>)
    requires LegalRun(s, es)
    decreases |es|
  {
    es != [] && ((s.place == StartUse && es[0].Handler? && es[0].x.done) || ReportsDone(Step(s, es[0]), es[1..]))
  }

  /** Is the codec initialised, as far as the handler's state tells? */
  predicate KnowsDone(s: State) {
    s.phase == Decoding || s.place == StartGrant(true) || s.place == StartEnd(true)
  }

  lemma KnowsArrival(s: State, e: Event)
    requires Placed(s) && Legal(s, e) && !e.Handler?
    ensures Placed(Step(s, e)) && (KnowsDone(Step(s, e)) <==> KnowsDone(s))
  {
    hide Wrap;
  }

  lemma KnowsPlaced(s: State, x: Answers)
    requires Placed(s) && Fits(s, x)
    ensures Placed(Next(s, x))
  {
    hide Wrap, Units, Taken, Due;
    match s.place
    case Resting =>
    case Checking =>
    case StartFill =>
    case StartUse =>
    case StartGrant(_) =>
    case StartEnd(_) =>
    case DecodeFill =>
    case DecodeUse =>
    case DecodeGrant =>
  }

  lemma KnowsNext(s: State, x: Answers)
    requires Placed(s) && Fits(s, x)
    ensures KnowsDone(Next(s, x)) <==> KnowsDone(s) || (s.place == StartUse && x.done)
  {
    hide Wrap, Units, Taken, Due;
    match s.place
    case Resting =>
    case Checking =>
    case StartFill =>
    case StartUse =>
    case StartGrant(_) =>
    case StartEnd(_) =>
    case DecodeFill =>
    case DecodeUse =>
    case DecodeGrant =>
  }

  lemma KnowsStep(s: State, e: Event)
    requires Placed(s) && Legal(s, e)
    ensures Placed(Step(s, e))
    ensures KnowsDone(Step(s, e)) <==> KnowsDone(s) || (s.place == StartUse && e.Handler? && e.x.done)
  {
    hide Placed, KnowsDone, Next, Receive, Fits;
    if e.Handler? {
      KnowsPlaced(s, e.x);
      KnowsNext(s, e.x);
    } else {
      KnowsArrival(s, e);
    }
  }

  lemma {:induction false} KnowsRun(s: State, es: seq<Event>)
    requires Placed(s) && LegalRun(s, es)
    ensures Placed(Run(s, es)) && (KnowsDone(Run(s, es)) <==> KnowsDone(s) || ReportsDone(s, es))
    decreases |es|
  {
    hide Placed, Legal, Step, KnowsDone;
    if es != [] {
      KnowsStep(s, es[0]);
      KnowsRun(Step(s, es[0]), es[1..]);
    }
  }

  /** Between two calls, the decoder decodes if and only if the codec has reported that it is initialised. */
  lemma DecodesIffDone(es: seq<Event>)
    requires LegalRun(InitState(), es) && Run(InitState(), es).place == Resting
    ensures Run(InitState(), es).phase == Decoding <==> ReportsDone(InitState(), es)
  {
    KnowsRun(InitState(), es);
  }

  /** How many steps of the handler a run has. */
  function Steps(es: seq<Event>): nat {
    if es == [] then 0 else (if es[0].Handler? then 1 else 0) + Steps(es[1..])
  }

  /** On the way from a successful start to the decode call, and the call will not return early. */
  predicate OnTheWay(s: State, left: nat) {
    match s.place
    case StartGrant(done) => done && left == 3
    case StartEnd(done) => done && left == 2 && (s.at == 0 ==> s.ignoreFirst)
    case DecodeFill => left == 1 && (s.at == 0 ==> s.ignoreFirst)
    case DecodeUse => left == 0
    case _ => false
  }

  lemma WayStep(s: State, left: nat, e: Event)
    requires Legal(s, e) && OnTheWay(s, left) && (e.Handler? ==> left > 0)
    ensures OnTheWay(Step(s, e), if e.Handler? then left - 1 else left)
  {
    hide Wrap, Units;
  }

  lemma {:induction false} WayRun(s: State, left: nat, es: seq<Event>)
    requires LegalRun(s, es) && OnTheWay(s, left) && Steps(es) == left
    ensures Run(s, es).place == DecodeUse
    decreases |es|
  {
    hide Legal, Step, OnTheWay;
    if es == [] {
      WayEnds(s);
    } else {
      WayStep(s, left, es[0]);
      WayRun(Step(s, es[0]), if es[0].Handler? then left - 1 else left, es[1..]);
    }
  }

  lemma WayEnds(s: State)
    requires OnTheWay(s, 0)
    ensures s.place == DecodeUse
  {
  }

  /** Once the codec is initialised it is called to decode in the same call of the handler, whether or
      not the start has used anything, and whatever arrives in between. */
  lemma DecodesAtOnce(s: State, es: seq<Event>)
    requires s.place == StartGrant(true) && LegalRun(s, es) && Steps(es) == 3
    ensures Run(s, es).place == DecodeUse
  {
    WayRun(s, 3, es);
  }

  // ---- The messages suffice ----

  predicate Entry(s: State, e: Event) {
    s.place == Resting && e.Handler?
  }

  /** How often the handler is called. */
  function Entries(s: State, es: seq<Event>): nat
    requires LegalRun(s, es)
    decreases |es|
  {
    if es == [] then 0 else (if Entry(s, es[0]) then 1 else 0) + Entries(Step(s, es[0]), es[1..])
  }

  /** Each call uses up a message inserted before it, of which `used` are gone. */
  predicate Fed(s: State, es: seq<Event>, used: nat)
    requires LegalRun(s, es)
    decreases |es|
  {
    es != [] ==>
      && (Entry(s, es[0]) ==> used < s.posted)
      && Fed(Step(s, es[0]), es[1..], used + if Entry(s, es[0]) then 1 else 0)
  }

  /** A decoder that waits to be called has a message waiting for it. */
  predicate Awaited(s: State, used: nat) {
    && used <= s.posted
    && (s.phase == Idle ==> used == s.posted)
    && (s.phase == Buffering ==> 16 * 57 <= s.total)
    && (s.place == Resting && (s.phase == Buffering || s.phase == Initiating) && !s.prepForNext ==> used < s.posted)
  }

  lemma AwaitedStep(s: State, e: Event, used: nat)
    requires Inv(s) && Awaited(s, used) && Legal(s, e) && (Entry(s, e) ==> used < s.posted)
    ensures Awaited(Step(s, e), used + if Entry(s, e) then 1 else 0)
  {
    hide Wrap, Units;
    if e.Frame? && !Created(s) {
      assert s.received == s.ring;
      WrapSmall(|s.received|);
      WrapSmall(|s.received| + |e.data|);
    }
  }

  lemma {:induction false} AwaitedRun(s: State, es: seq<Event>, used: nat)
    requires Inv(s) && Awaited(s, used) && LegalRun(s, es) && Fed(s, es, used)
    ensures Awaited(Run(s, es), used + Entries(s, es))
    decreases |es|
  {
    hide Inv, Awaited, Legal, Step;
    if es != [] {
      AwaitedStep(s, es[0], used);
      StepKeepsInv(s, es[0]);
      AwaitedRun(Step(s, es[0]), es[1..], used + if Entry(s, es[0]) then 1 else 0);
    }
  }

  /** In every session whose calls are each due to a message of the decoder's own, a decoder that is
      buffering or initialising between two calls has inserted one more message than there were calls -
      unless another session is being prepared. */
  lemma MessagesSuffice(es: seq<Event>)
    requires LegalRun(InitState(), es) && Fed(InitState(), es, 0)
    ensures var s := Run(InitState(), es);
            && Entries(InitState(), es) <= s.posted
            && (s.place == Resting && (s.phase == Buffering || s.phase == Initiating) && !s.prepForNext ==>
                  Entries(InitState(), es) < s.posted)
  {
    InitInv();
    AwaitedRun(InitState(), es, 0);
  }
}
