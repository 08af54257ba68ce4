/** The mSBC decoder's input side as a state machine: a ring of received bytes, the codec's linear
    buffer, and the credit protocol by which the DSP lets the MCU send more.

    Frames arrive in an interrupt, so the handler is a sequence of steps between any two of which
    frames may arrive. A step ends wherever what comes next depends on something an arrival changes.
  */
module DecoderModel {
  import opened Machine

  const FRAME: int := 57
  const BUFFER_SIZE: int := FRAME * 64
  const REQUEST_THD: int := FRAME * 8
  const BUFFERING_LIMIT: int := FRAME * 16
  const APPLY_LIMIT: int := FRAME * 32
  const FIRST_GRANT: int := FRAME * 31

  datatype Phase = Idle | Buffering | Initiating | Decoding

  /** Where the handler has got to. */
  datatype Place =
    | Resting                    // it is not running
    | Checking                   // before the test whether enough has been buffered
    | StartFill                  // in msbc_decoder_engine_start: before the fill,
    | StartUse                   // before the codec has reported,
    | StartGrant(done: bool)     // before the request for more data,
    | StartEnd(done: bool)       // and after it
    | DecodeFill                 // in msbc_decoder_engine_decode: before the fill,
    | DecodeUse                  // before the codec has reported,
    | DecodeGrant                // and before the request for more data

  /** `rest` is the filled part of the codec's buffer that the codec has not used, `at` what it used
      in the last call: the buffer level is their sum. `received` and `consumed` record the session;
      nothing reads them. */
  datatype State = State(
    place: Place,
    phase: Phase,
    ring: seq<Byte>,
    rest: seq<Byte>,
    at: nat,
    inputSize: int,
    dynamicConsumed: int,
    allReceived: bool,
    requested: int,
    total: int,
    prepForNext: bool,
    ignoreFirst: bool,
    posted: nat,
    received: seq<Byte>,
    consumed: seq<Byte>)

  /** Cleared memory, before the first session. */
  function Cleared(): State {
    State(Resting, Idle, [], [], 0, 0, 0, false, 0, 0, false, false, 0, [], [])
  }

  /** `msbc_decoder_init` with a free channel, whatever the session before left: the codec's buffer
      level and index are not reset, nor is `msbc_ignore_first_consumed`. */
  function Restart(s: State): State {
    s.(phase := Idle, ring := [], dynamicConsumed := 0, allReceived := false, requested := FIRST_GRANT,
       total := 0, prepForNext := false, received := [], consumed := [])
  }

  /** The first session. */
  function InitState(): State {
    Restart(Cleared())
  }

  // ---- Reception ----

  /** The decoder is started once enough has been buffered. */
  function Wake(s: State): State {
    if s.phase == Idle && BUFFERING_LIMIT <= s.total then s.(phase := Buffering, posted := s.posted + 1) else s
  }

  function Arrive(s: State, data: seq<Byte>): State {
    var left := if s.requested >= |data| then s.requested - |data| else 0;
    s.(requested := left,
       allReceived := s.allReceived || left == 0,
       total := Wrap(s.total + |data|),
       ring := s.ring + data,
       received := s.received + data)
  }

  /** `msbc_decoder_recv_frame`. */
  function Receive(s: State, data: seq<Byte>): State {
    Wake(Arrive(s, data))
  }

  // ---- The handler ----

  /** How many bytes the next fill takes out of the ring. */
  function Taken(s: State): int {
    Min(|s.ring|, s.inputSize - |s.rest|)
  }

  /** What is unused moves to the front and the ring fills up the rest. */
  function Fill(s: State): State
    requires |s.rest| <= s.inputSize
  {
    s.(rest := s.rest + s.ring[..Taken(s)], ring := s.ring[Taken(s)..])
  }

  /** The codec has used `used` bytes of the filled buffer. */
  function Use(s: State, used: nat): State
    requires used <= |s.rest|
  {
    s.(at := used, rest := s.rest[used..], consumed := s.consumed + s.rest[..used],
       dynamicConsumed := Wrap(s.dynamicConsumed + used))
  }

  /** How many frames a grant asks for; the subtraction is unsigned in the source. */
  function Units(occupied: int): int {
    if BUFFER_SIZE - occupied > APPLY_LIMIT
    then APPLY_LIMIT / FRAME - 1
    else Wrap((BUFFER_SIZE - occupied) / FRAME - 1)
  }

  /** More data is to be asked for now, if a channel is free. */
  predicate Due(s: State) {
    s.allReceived && s.dynamicConsumed >= REQUEST_THD && !s.prepForNext && Units(|s.ring|) != 0
  }

  function Grant(s: State, channel: bool): State {
    if Due(s) && channel
    then s.(dynamicConsumed := 0, allReceived := false, requested := Wrap(Units(|s.ring|) * FRAME))
    else s
  }

  /** The early return of `msbc_decoder_engine_decode`: nothing was used last time, nothing new came. */
  predicate Idles(s: State) {
    !s.ignoreFirst && s.at == 0 && Taken(s) == 0
  }

  /** What the environment decides in one step of the handler: the size of the codec's buffer if it is
      created now and what its memory happens to hold where the last session's data were, what the
      codec answers, and whether an IPC channel is free. Each step looks at what concerns it. */
  datatype Answers = Answers(inputSize: int, content: seq<Byte>, done: bool, used: nat, channel: bool)

  /** `msbc_decoder_engine_init`. */
  function Create(s: State, x: Answers): State {
    s.(phase := Initiating, inputSize := x.inputSize, rest := x.content)
  }

  /** The codec's buffer has a 32-bit size and reaches as far as data left by the last session, and
      the codec reports no more than it was given. */
  predicate Fits(s: State, x: Answers) {
    match s.place
    case Checking =>
      BUFFERING_LIMIT <= s.total ==>
      0 < x.inputSize < TOP_BIT && |x.content| == |s.rest| && (s.rest != [] ==> s.at + |s.rest| <= x.inputSize)
    case StartFill => |s.rest| <= s.inputSize
    case StartUse => x.used <= |s.rest|
    case DecodeFill => |s.rest| <= s.inputSize
    case DecodeUse => x.used <= |s.rest|
    case _ => true
  }

  /** One step of `msbc_decoder_do_decoder_handler`, with its falling through from state to state. */
  function Next(s: State, x: Answers): State
    requires Fits(s, x)
  {
    match s.place
    case Resting =>
      (match s.phase
       case Idle => s.(phase := Buffering, place := Checking)
       case Buffering => s.(place := Checking)
       case Initiating => s.(place := StartFill)
       case Decoding => s.(place := DecodeFill))
    case Checking =>
      if BUFFERING_LIMIT <= s.total then Create(s, x).(place := StartFill) else s.(place := Resting)
    case StartFill => Fill(s).(place := StartUse)
    case StartUse => Use(s, x.used).(place := StartGrant(x.done))
    case StartGrant(done) =>
      var t := Grant(s, x.channel).(place := StartEnd(done));
      if done then t.(ignoreFirst := t.at == 0) else t
    case StartEnd(done) =>
      if done then s.(phase := Decoding, place := DecodeFill)
      else if !s.prepForNext then s.(posted := s.posted + 1, place := Resting)
      else s.(place := Resting)
    case DecodeFill =>
      if Idles(s) then s.(place := Resting) else Fill(s).(ignoreFirst := false, at := 0, place := DecodeUse)
    case DecodeUse => Use(s, x.used).(place := DecodeGrant)
    case DecodeGrant => Grant(s, x.channel).(place := Resting)
  }

  datatype Event = Frame(data: seq<Byte>) | PrepareForNext | Handler(x: Answers)

  /** The MCU sends at most what was granted. */
  predicate Legal(s: State, e: Event) {
    match e
    case Frame(data) => |data| <= s.requested
    case PrepareForNext => true
    case Handler(x) => Fits(s, x)
  }

  function Step(s: State, e: Event): State
    requires Legal(s, e)
  {
    match e
    case Frame(data) => Receive(s, data)
    case PrepareForNext => s.(prepForNext := true)
    case Handler(x) => Next(s, x)
  }

  // ---- The invariant ----

  /** Nothing lost, repeated or reordered. */
  predicate Stream(s: State) {
    s.received == s.consumed + s.rest + s.ring
  }

  /** Bytes in the ring, unused in the linear buffer, still to come, or used since the last grant. */
  function InFlight(s: State): int {
    |s.ring| + |s.rest| + s.requested + s.dynamicConsumed
  }

  predicate Created(s: State) {
    s.phase == Initiating || s.phase == Decoding
  }

  predicate Placed(s: State) {
    match s.place
    case Resting => true
    case Checking => s.phase == Buffering
    case StartFill => s.phase == Initiating
    case StartUse => s.phase == Initiating
    case StartGrant(_) => s.phase == Initiating
    case StartEnd(_) => s.phase == Initiating
    case _ => s.phase == Decoding
  }

  /** The ring has room for whatever the MCU may still send. */
  predicate Bounded(s: State) {
    0 <= s.requested && |s.ring| + s.requested <= BUFFER_SIZE - FRAME
  }

  /** All of the invariant but the buffer level. */
  predicate Core(s: State) {
    && Placed(s) && Stream(s) && Bounded(s)
    && s.total == Wrap(|s.received|)
    && 0 <= s.dynamicConsumed
    && (s.allReceived <==> s.requested == 0)
    && (Created(s) ==> |s.rest| <= s.inputSize && 0 < s.inputSize < TOP_BIT)
    && (!Created(s) ==> s.rest == [] && s.consumed == [] && s.dynamicConsumed == 0)
    && FIRST_GRANT <= InFlight(s) <= BUFFER_SIZE - FRAME + (if Created(s) then s.inputSize else 0)
  }

  /** The buffer level is within the buffer, except between a fill and the report that follows it. */
  predicate Level(s: State) {
    s.place != StartUse && s.rest != [] ==> s.at + |s.rest| <= s.inputSize
  }

  predicate Inv(s: State) {
    Core(s) && Level(s)
  }

  lemma InitInv()
    ensures Inv(InitState())
  {
  }

  lemma ReceiveStream(s: State, data: seq<Byte>)
    requires Stream(s)
    ensures Stream(Receive(s, data))
  {
    assert s.consumed + s.rest + (s.ring + data) == (s.consumed + s.rest + s.ring) + data;
  }

  /** Reception within the credit, wherever the handler is. */
  lemma ReceiveKeepsInv(s: State, data: seq<Byte>)
    requires Inv(s) && |data| <= s.requested
    ensures Inv(Receive(s, data))
  {
    hide Stream, Wrap;
    ReceiveStream(s, data);
    WrapAdd(|s.received|, |data|);
  }

  /** A fill moves bytes along the stream without changing it, as many as there are or fit. */
  lemma FillKeeps(s: State)
    requires |s.rest| <= s.inputSize
    ensures var t := Fill(s);
            && t.rest + t.ring == s.rest + s.ring
            && |t.rest| + |t.ring| == |s.rest| + |s.ring|
            && |t.rest| <= s.inputSize && |t.ring| <= |s.ring|
            && (t.ring == [] || |t.rest| == s.inputSize)
  {
    assert s.ring == s.ring[..Taken(s)] + s.ring[Taken(s)..];
  }

  /** `Units` never wraps, and what it asks for leaves one frame of the ring unused. */
  lemma UnitsFit(occupied: int)
    requires 0 <= occupied <= BUFFER_SIZE - FRAME
    ensures 0 <= Units(occupied) <= 31
    ensures occupied + Units(occupied) * FRAME <= BUFFER_SIZE - FRAME
    ensures FIRST_GRANT <= occupied + Units(occupied) * FRAME
    ensures Wrap(Units(occupied) * FRAME) == Units(occupied) * FRAME
    ensures Units(occupied) == 0 <==> BUFFER_SIZE - 2 * FRAME < occupied
  {
  }

  lemma FillStream(s: State)
    requires |s.rest| <= s.inputSize && Stream(s)
    ensures Stream(Fill(s))
  {
    FillKeeps(s);
    assert s.consumed + s.rest + s.ring == s.consumed + (s.rest + s.ring);
    assert s.consumed + Fill(s).rest + Fill(s).ring == s.consumed + (Fill(s).rest + Fill(s).ring);
  }

  lemma FillKeepsCore(s: State)
    requires Core(s) && Created(s)
    ensures Core(Fill(s))
  {
    hide Stream, Fill;
    FillKeeps(s);
    FillStream(s);
    FillFrame(s);
  }

  lemma FillFrame(s: State)
    requires |s.rest| <= s.inputSize
    ensures Fill(s) == s.(rest := Fill(s).rest, ring := Fill(s).ring)
  {
  }

  lemma UseStream(s: State, used: nat)
    requires used <= |s.rest| && Stream(s)
    ensures Stream(Use(s, used))
  {
    assert s.rest == s.rest[..used] + s.rest[used..];
  }

  /** Any report of the codec within what it was given. */
  lemma UseKeepsCore(s: State, used: nat)
    requires Core(s) && Created(s) && used <= |s.rest|
    ensures Core(Use(s, used))
  {
    hide Stream, Wrap;
    UseStream(s, used);
    WrapSmall(s.dynamicConsumed + used);
  }

  lemma GrantKeepsCore(s: State, channel: bool)
    requires Core(s) && Created(s)
    ensures Core(Grant(s, channel))
  {
    hide Wrap, Units;
    UnitsFit(|s.ring|);
  }

  lemma CreateKeepsCore(s: State, x: Answers)
    requires Core(s) && s.place == Checking && BUFFERING_LIMIT <= s.total && Fits(s, x)
    ensures Core(Create(s, x).(place := StartFill))
  {
    hide Wrap;
  }

  /** What the invariant says nothing about. */
  lemma ElsewhereKeepsCore(s: State, t: State)
    requires Core(s) && Placed(t) && (Created(t) <==> Created(s))
    requires t == s.(place := t.place, phase := t.phase, at := t.at, ignoreFirst := t.ignoreFirst, posted := t.posted)
    ensures Core(t)
  {
  }

  lemma CorePlaced(s: State)
    requires Core(s)
    ensures Placed(s)
  {
  }

  lemma NextFillKeeps(s: State, x: Answers)
    requires Core(s) && (s.place == StartFill || s.place == DecodeFill) && Fits(s, x)
    ensures Core(Next(s, x))
  {
    hide Stream, Wrap, Taken, Core, Fill;
    CorePlaced(s);
    if s.place == DecodeFill && Idles(s) {
      ElsewhereKeepsCore(s, Next(s, x));
    } else {
      FillKeepsCore(s);
      FillFrame(s);
      ElsewhereKeepsCore(Fill(s), Next(s, x));
    }
  }

  lemma NextUseKeeps(s: State, x: Answers)
    requires Core(s) && (s.place == StartUse || s.place == DecodeUse) && Fits(s, x)
    ensures Core(Next(s, x))
  {
    hide Stream, Wrap, Core, Taken;
    CorePlaced(s);
    UseKeepsCore(s, x.used);
    ElsewhereKeepsCore(Use(s, x.used), Next(s, x));
  }

  lemma NextGrantKeeps(s: State, x: Answers)
    requires Core(s) && (s.place.StartGrant? || s.place == DecodeGrant)
    ensures Core(Next(s, x))
  {
    hide Stream, Wrap, Core, Due;
    CorePlaced(s);
    GrantKeepsCore(s, x.channel);
    ElsewhereKeepsCore(Grant(s, x.channel), Next(s, x));
  }

  lemma NextPhaseKeeps(s: State, x: Answers)
    requires Core(s) && Fits(s, x) && (s.place == Resting || s.place == Checking || s.place.StartEnd?)
    ensures Core(Next(s, x))
  {
    hide Stream, Wrap, Core;
    CorePlaced(s);
    if s.place == Checking && BUFFERING_LIMIT <= s.total {
      CreateKeepsCore(s, x);
    } else {
      ElsewhereKeepsCore(s, Next(s, x));
    }
  }

  lemma LevelStep(s: State, x: Answers)
    requires Inv(s) && Fits(s, x)
    ensures Level(Next(s, x))
  {
    hide Stream, Wrap, Units;
    if s.place == StartFill || s.place == DecodeFill {
      FillKeeps(s);
    }
  }

  /** Each step of the handler, from every place. */
  lemma NextKeepsInv(s: State, x: Answers)
    requires Inv(s) && Fits(s, x)
    ensures Inv(Next(s, x))
  {
    hide Core, Next, Fits;
    LevelStep(s, x);
    match s.place
    case StartFill => NextFillKeeps(s, x);
    case DecodeFill => NextFillKeeps(s, x);
    case StartUse => NextUseKeeps(s, x);
    case DecodeUse => NextUseKeeps(s, x);
    case StartGrant(_) => NextGrantKeeps(s, x);
    case DecodeGrant => NextGrantKeeps(s, x);
    case _ => NextPhaseKeeps(s, x);
  }

  lemma StepKeepsInv(s: State, e: Event)
    requires Inv(s) && Legal(s, e)
    ensures Inv(Step(s, e))
  {
    match e
    case Frame(data) => ReceiveKeepsInv(s, data);
    case PrepareForNext =>
    case Handler(x) => NextKeepsInv(s, x);
  }
}
