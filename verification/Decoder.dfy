/** The decoder's input side as the firmware has it: a ring with two indices, a linear buffer,
    counters updated in place. Every method does what `DecoderModel` says of the abstract state. */
module Decoder {
  import opened Machine
  import opened DecoderModel
  import opened DecoderRuns
  import Ring

  class MsbcDecoder {
    const buffer: array<Byte>               // msbc_decoder_buffer
    var inputIndex: nat
    var outputIndex: nat

    var pbInpBuf: array<Byte>
    var iBuffSize: nat
    var iBytesConsumed: nat

    var totalInput: Word
    var dynamicConsumed: Word
    var allRequestDataReceived: bool
    var requestDataSize: Word
    var prepForNext: bool
    var ignoreFirstConsumed: bool
    var phase: Phase
    var posted: nat                         // MP3_DECODER_DO_DECODE messages inserted

    ghost var place: Place                  // where the handler is
    ghost var received: seq<Byte>
    ghost var consumed: seq<Byte>

    /** The bytes between the output index and the input index, oldest first. */
    ghost function Fifo(): seq<Byte>
      reads this`inputIndex, this`outputIndex, buffer
      requires inputIndex <= buffer.Length && outputIndex <= buffer.Length
    {
      Ring.Window(buffer[..], outputIndex, inputIndex)
    }

    ghost predicate RingShaped()
      reads this
    {
      && buffer.Length == BUFFER_SIZE
      && inputIndex < BUFFER_SIZE && outputIndex < BUFFER_SIZE
      && pbInpBuf != buffer
    }

    /** The unused part of the linear buffer. While the codec has not reported in a start call,
        `iBytesConsumed` still holds its last report. */
    ghost function Rest(): seq<Byte>
      reads this`place, this`iBuffSize, this`iBytesConsumed, this`pbInpBuf, pbInpBuf
      requires Levelled()
    {
      if place == StartUse then pbInpBuf[..iBuffSize]
      else if iBytesConsumed == iBuffSize then []
      else pbInpBuf[iBytesConsumed..iBuffSize]
    }

    ghost predicate Levelled()
      reads this`place, this`iBuffSize, this`iBytesConsumed, this`pbInpBuf
    {
      if place == StartUse then iBuffSize <= pbInpBuf.Length
      else iBytesConsumed <= iBuffSize && (iBytesConsumed < iBuffSize ==> iBuffSize <= pbInpBuf.Length)
    }

    ghost predicate Shaped()
      reads this
    {
      RingShaped() && Levelled() && pbInpBuf.Length < TOP_BIT
    }

    ghost function Model(): State
      reads this, buffer, pbInpBuf
      requires Shaped()
    {
      State(place, phase, Fifo(), Rest(), iBytesConsumed, pbInpBuf.Length, dynamicConsumed,
            allRequestDataReceived, requestDataSize, totalInput, prepForNext, ignoreFirstConsumed, posted,
            received, consumed)
    }

    /** The shape of every state of a session, whether or not it began with a leftover. */
    ghost predicate Valid()
      reads this, buffer, pbInpBuf
    {
      Shaped() && Bounded(Model())
    }

    /** Cleared memory; the ring's own memory is allocated here once and for all. */
    constructor ()
      ensures Valid() && Model() == Cleared()
      ensures fresh(buffer) && fresh(pbInpBuf)
    {
      buffer := new Byte[BUFFER_SIZE];
      inputIndex, outputIndex := 0, 0;
      pbInpBuf := new Byte[0];
      iBuffSize, iBytesConsumed := 0, 0;
      dynamicConsumed, totalInput := 0, 0;
      phase, place := Idle, Resting;
      allRequestDataReceived, requestDataSize := false, 0;
      prepForNext, ignoreFirstConsumed := false, false;
      posted := 0;
      received, consumed := [], [];
    }

    method EmptyRing()
      requires Shaped()
      modifies this`inputIndex, this`outputIndex
      ensures Shaped() && Model() == old(Model()).(ring := [])
    {
      inputIndex, outputIndex := 0, 0;
    }

    method FirstGrant()
      requires Shaped()
      modifies this`allRequestDataReceived, this`requestDataSize
      ensures Shaped() && Model() == old(Model()).(allReceived := false, requested := FIRST_GRANT)
    {
      var applyUnit := APPLY_LIMIT / FRAME - 1;   // APPLY_LIMIT < BUFFER_SIZE
      allRequestDataReceived := false;
      requestDataSize := applyUnit * FRAME;
    }

    method ClearCounters()
      requires Shaped()
      modifies this`dynamicConsumed, this`totalInput, this`received, this`consumed
      ensures Shaped() && Model() == old(Model()).(dynamicConsumed := 0, total := 0, received := [], consumed := [])
    {
      hide Ring.Window;
      dynamicConsumed, totalInput := 0, 0;
      received, consumed := [], [];
    }

    /** What `msbc_decoder_init` sets. */
    method Reset()
      requires Shaped()
      modifies this`inputIndex, this`outputIndex, this`dynamicConsumed, this`totalInput, this`phase,
               this`allRequestDataReceived, this`requestDataSize, this`prepForNext, this`received, this`consumed
      ensures Shaped() && Model() == Restart(old(Model()))
    {
      hide Ring.Window;
      EmptyRing();
      ClearCounters();
      FirstGrant();
      phase := Idle;
      prepForNext := false;
    }

    /** `msbc_decoder_init`. Without a free channel it does nothing; with one a session starts, which
        is as good as a first one exactly when the last one left nothing in the linear buffer. */
    method Init(channel: bool)
      requires Valid() && place == Resting
      modifies this`inputIndex, this`outputIndex, this`dynamicConsumed, this`totalInput, this`phase,
               this`allRequestDataReceived, this`requestDataSize, this`prepForNext, this`received, this`consumed
      ensures Valid() && Model() == if channel then Restart(old(Model())) else old(Model())
      ensures channel && (Inv(old(Model())) || old(Model()) == Cleared()) ==> (Inv(Model()) <==> Rest() == [])
    {
      hide Inv, Cleared, Ring.Window;
      ghost var s := Model();
      if channel {
        if Inv(s) || s == Cleared() {
          RestartCleanIff(s);
        }
        Reset();
      }
    }

    /** The copying in `msbc_decoder_recv_frame`, which may wrap round the end of the ring. */
    method CopyIn(data: seq<Byte>)
      requires Shaped() && |Fifo()| + |data| < BUFFER_SIZE
      modifies this`inputIndex, buffer
      ensures Shaped() && Fifo() == old(Fifo()) + data
    {
      ghost var b, i := buffer[..], inputIndex;
      var length := |data|;
      var leftSpace := BUFFER_SIZE - inputIndex;
      if leftSpace <= length {
        forall k | 0 <= k < leftSpace { buffer[inputIndex + k] := data[k]; }
        length := length - leftSpace;
        inputIndex := 0;
        if length != 0 {
          forall k | 0 <= k < length { buffer[k] := data[leftSpace + k]; }
          inputIndex := length;
        }
      } else {
        forall k | 0 <= k < length { buffer[inputIndex + k] := data[k]; }
        inputIndex := inputIndex + length;
      }
      Ring.Push(b, buffer[..], outputIndex, i, data);
    }

    /** The check whether all data asked for have arrived. */
    method CountDown(length: nat)
      modifies this`requestDataSize, this`allRequestDataReceived
      ensures requestDataSize == if old(requestDataSize) >= length then old(requestDataSize) - length else 0
      ensures allRequestDataReceived == (old(allRequestDataReceived) || requestDataSize == 0)
    {
      if requestDataSize >= length {
        requestDataSize := requestDataSize - length;
        if requestDataSize == 0 {
          allRequestDataReceived := true;
        }
      } else {
        requestDataSize := 0;
        allRequestDataReceived := true;
      }
    }

    /** `msbc_decoder_recv_frame`, for any data the ring has room for, wherever the handler is. */
    method Receive(data: seq<Byte>)
      requires Shaped() && |Fifo()| + |data| < BUFFER_SIZE
      modifies this`requestDataSize, this`allRequestDataReceived, this`totalInput, this`inputIndex,
               this`phase, this`posted, this`received, buffer
      ensures Shaped() && Model() == DecoderModel.Receive(old(Model()), data)
      ensures old(Valid()) && |data| <= old(requestDataSize) ==> Valid()
      ensures old(phase) != Idle ==> phase == old(phase)
    {
      hide Ring.Window, Wrap;
      ghost var s := Model();
      CountDown(|data|);
      totalInput := Wrap(totalInput + |data|);
      CopyIn(data);
      received := received + data;
      assert Model() == Arrive(s, data);
      WakeUp();
    }

    method WakeUp()
      requires Shaped()
      modifies this`phase, this`posted
      ensures Shaped() && Model() == Wake(old(Model()))
    {
      if phase == Idle && BUFFERING_LIMIT <= totalInput {
        phase := Buffering;
        posted := posted + 1;
      }
    }

    /** One `memcpy` out of the ring. */
    method CopyOut(at: nat, n: nat)
      requires RingShaped() && at + n <= pbInpBuf.Length && n <= |Fifo()| && outputIndex + n <= BUFFER_SIZE
      modifies this`outputIndex, pbInpBuf
      ensures RingShaped() && outputIndex == Ring.At(BUFFER_SIZE, old(outputIndex) + n)
      ensures Fifo() == old(Fifo())[n..]
      ensures pbInpBuf[..at + n] == old(pbInpBuf[..at]) + old(Fifo())[..n]
    {
      ghost var before := pbInpBuf[..at];
      Ring.Pop(buffer[..], outputIndex, inputIndex, n);
      forall k | 0 <= k < n { pbInpBuf[at + k] := buffer[outputIndex + k]; }
      assert pbInpBuf[..at + n] == before + buffer[..][outputIndex..outputIndex + n];
      outputIndex := outputIndex + n;
      if outputIndex == BUFFER_SIZE {
        outputIndex := 0;
      }
    }

    /** `xa_sbc_dec_get_data`. Its recursion goes one call deep at most: the measure is a bool. */
    method GetData(at: nat, size: nat) returns (dealLength: nat)
      requires RingShaped() && at + size <= pbInpBuf.Length
      modifies this`outputIndex, pbInpBuf
      ensures RingShaped() && dealLength == Min(size, |old(Fifo())|)
      ensures Fifo() == old(Fifo())[dealLength..]
      ensures pbInpBuf[..at + dealLength] == old(pbInpBuf[..at]) + old(Fifo())[..dealLength]
      decreases inputIndex < outputIndex
    {
      hide Ring.Window;
      ghost var fifo, before := Fifo(), pbInpBuf[..at];
      Ring.WindowLength(buffer[..], outputIndex, inputIndex);
      if outputIndex < inputIndex {
        dealLength := Min(inputIndex - outputIndex, size);
        CopyOut(at, dealLength);
      } else if outputIndex == inputIndex {
        dealLength := 0;
      } else {
        var length := BUFFER_SIZE - outputIndex;
        if length >= size {
          length := size;
        }
        CopyOut(at, length);
        dealLength := length;
        if length != size {
          var more := GetData(at + dealLength, size - length);
          Ring.TwoReads(before, fifo, length, more);
          dealLength := dealLength + more;
        }
      }
    }

    /** `memcpy` within the linear buffer, towards its start. */
    method Shift(from: nat, n: nat)
      requires RingShaped() && from + n <= pbInpBuf.Length
      modifies pbInpBuf
      ensures pbInpBuf[..n] == old(pbInpBuf[from..from + n])
    {
      forall k | 0 <= k < n { pbInpBuf[k] := pbInpBuf[from + k]; }
    }

    /** The unused end of the linear buffer goes to its front. */
    method ShiftTail() returns (leftDataLength: nat)
      requires Shaped() && place != StartUse && |Rest()| <= pbInpBuf.Length
      modifies pbInpBuf
      ensures leftDataLength == |old(Rest())| && pbInpBuf[..leftDataLength] == old(Rest())
    {
      leftDataLength := iBuffSize - iBytesConsumed;
      if leftDataLength != 0 && iBytesConsumed != 0 {
        Shift(iBytesConsumed, leftDataLength);
      }
    }

    /** The fields after the fill of the state `s`, with the codec's report still to come. */
    ghost predicate Refilled(s: State)
      requires |s.rest| <= s.inputSize
      reads this, buffer, pbInpBuf
    {
      && RingShaped() && iBuffSize <= pbInpBuf.Length < TOP_BIT
      && Fill(s) ==
         State(place, phase, Fifo(), pbInpBuf[..iBuffSize], iBytesConsumed, pbInpBuf.Length, dynamicConsumed,
               allRequestDataReceived, requestDataSize, totalInput, prepForNext, ignoreFirstConsumed, posted,
               received, consumed)
    }

    /** The start of both engine calls: shift, then fill up from the ring. */
    method FillUp() returns (bytesRead: nat)
      requires Shaped() && place != StartUse && |Rest()| <= pbInpBuf.Length
      modifies this`outputIndex, this`iBuffSize, pbInpBuf
      ensures Refilled(old(Model())) && bytesRead == Taken(old(Model()))
    {
      hide Ring.Window;
      var leftDataLength := ShiftTail();
      bytesRead := GetData(leftDataLength, pbInpBuf.Length - leftDataLength);
      iBuffSize := leftDataLength + bytesRead;
    }

    /** `left_space` in the source. */
    method Occupied() returns (occupied: nat)
      requires RingShaped()
      ensures occupied == |Fifo()|
    {
      Ring.WindowLength(buffer[..], outputIndex, inputIndex);
      if outputIndex > inputIndex {
        occupied := inputIndex + BUFFER_SIZE - outputIndex;
      } else {
        occupied := inputIndex - outputIndex;
      }
    }

    /** The credit logic at the end of both engine calls. */
    method RequestMore(channel: bool)
      requires Valid()
      modifies this`dynamicConsumed, this`allRequestDataReceived, this`requestDataSize
      ensures Valid() && Model() == Grant(old(Model()), channel)
    {
      hide Ring.Window, Wrap, Rest;
      if allRequestDataReceived && dynamicConsumed >= REQUEST_THD && !prepForNext {
        if channel {
          var occupied := Occupied();
          UnitsFit(occupied);
          var applyUnit: Word;
          if BUFFER_SIZE - occupied > APPLY_LIMIT {
            applyUnit := APPLY_LIMIT / FRAME - 1;
          } else {
            applyUnit := Wrap((BUFFER_SIZE - occupied) / FRAME - 1);
          }
          if applyUnit != 0 {
            dynamicConsumed := 0;
            allRequestDataReceived := false;
            requestDataSize := Wrap(applyUnit * FRAME);
          }
        }
      }
    }

    /** The codec reports how much of the filled buffer it has used. */
    method CodecUses(used: nat, ghost next: Place)
      requires Valid() && used <= |Rest()| && next != StartUse
      requires place == StartUse || (place == DecodeUse && iBytesConsumed == 0)
      modifies this`iBytesConsumed, this`dynamicConsumed, this`consumed, this`place
      ensures Valid() && Model() == Use(old(Model()), used).(place := next)
    {
      hide Ring.Window, Wrap;
      consumed := consumed + Rest()[..used];
      iBytesConsumed := used;
      dynamicConsumed := Wrap(dynamicConsumed + iBytesConsumed);
      place := next;
    }

    /** New memory, which happens to hold `content` from `at` on. */
    static method NewBuffer(size: nat, at: nat, content: seq<Byte>) returns (memory: array<Byte>)
      requires content != [] ==> at + |content| <= size
      ensures fresh(memory) && memory.Length == size
      ensures content != [] ==> memory[at..at + |content|] == content
    {
      memory := new Byte[size](i => if 0 <= i - at < |content| then content[i - at] else 0);
    }

    /** `msbc_decoder_engine_init`: the codec says how large its input buffer is. The new buffer starts
        with whatever its memory holds, of which a level left from the last session makes `content` data. */
    method EngineInit(uiInpSize: nat, content: seq<Byte>)
      requires Valid() && place == Checking && |content| == |Rest()| && uiInpSize < TOP_BIT
      requires Rest() != [] ==> iBuffSize <= uiInpSize
      modifies this`pbInpBuf
      ensures Valid() && fresh(pbInpBuf) && Model() == old(Model()).(inputSize := uiInpSize, rest := content)
    {
      hide Ring.Window, Fifo;
      assert |content| == iBuffSize - iBytesConsumed;
      pbInpBuf := NewBuffer(uiInpSize, iBytesConsumed, content);
      assert Rest() == content;
    }

    // ---- The steps of the handler ----

    /** The switch at the top of `msbc_decoder_do_decoder_handler`. */
    method Enter(ghost x: Answers) returns (state: Phase)
      requires Valid() && place == Resting
      modifies this`phase, this`place
      ensures Valid() && Model() == Next(old(Model()), x) && state == old(phase) && phase != Idle
      ensures place == match state
                       case Initiating => StartFill
                       case Decoding => DecodeFill
                       case _ => Checking
    {
      hide Ring.Window;
      state := phase;
      if phase == Idle {
        phase := Buffering;
      }
      place := if state == Initiating then StartFill else if state == Decoding then DecodeFill else Checking;
    }

    method CreateCodec(x: Answers)
      requires Valid() && place == Checking && Fits(Model(), x) && BUFFERING_LIMIT <= totalInput
      modifies this`pbInpBuf, this`phase, this`place
      ensures Valid() && Model() == Create(old(Model()), x).(place := StartFill)
      ensures place == StartFill && phase == Initiating && fresh(pbInpBuf)
    {
      hide Ring.Window, Fifo;
      EngineInit(x.inputSize, x.content);
      phase := Initiating;
      place := StartFill;
    }

    /** Is enough buffered? Then the codec is created. */
    method Check(x: Answers) returns (enough: bool)
      requires Valid() && place == Checking && Fits(Model(), x)
      modifies this`pbInpBuf, this`phase, this`place
      ensures Valid() && Model() == Next(old(Model()), x)
      ensures place == (if enough then StartFill else Resting) && (phase == old(phase) || phase == Initiating)
      ensures pbInpBuf == old(pbInpBuf) || fresh(pbInpBuf)
    {
      hide Ring.Window;
      enough := BUFFERING_LIMIT <= totalInput;
      if enough {
        CreateCodec(x);
      } else {
        place := Resting;
      }
    }

    method AwaitReport(ghost s: State)
      requires |s.rest| <= s.inputSize && Bounded(Fill(s)) && Refilled(s)
      modifies this`place
      ensures Valid() && Model() == Fill(s).(place := StartUse) && place == StartUse
    {
      hide Ring.Window, Fill, Taken;
      place := StartUse;
    }

    /** The fill of `msbc_decoder_engine_start`. */
    method StartFilling(ghost x: Answers)
      requires Valid() && place == StartFill && Fits(Model(), x)
      modifies this`outputIndex, this`iBuffSize, this`place, pbInpBuf
      ensures Valid() && Model() == Next(old(Model()), x) && place == StartUse
    {
      hide Ring.Window, Taken, Fill, Refilled, Rest;
      ghost var s := Model();
      FillKeeps(s);
      FillFrame(s);
      var bytesRead := FillUp();
      AwaitReport(s);
    }

    /** What the codec reports in `msbc_decoder_engine_start`. */
    method StartReport(x: Answers)
      requires Valid() && place == StartUse && Fits(Model(), x)
      modifies this`iBytesConsumed, this`dynamicConsumed, this`consumed, this`place
      ensures Valid() && Model() == Next(old(Model()), x) && place == StartGrant(x.done)
    {
      hide Ring.Window, Wrap, Rest;
      CodecUses(x.used, StartGrant(x.done));
    }

    /** The end of `msbc_decoder_engine_start`; `done` says that the codec is initialised. */
    method StartRequest(done: bool, x: Answers)
      requires Valid() && place == StartGrant(done)
      modifies this`dynamicConsumed, this`allRequestDataReceived, this`requestDataSize, this`ignoreFirstConsumed,
               this`place
      ensures Valid() && Model() == Next(old(Model()), x) && place == StartEnd(done)
    {
      hide Ring.Window, Due, Wrap;
      RequestMore(x.channel);
      if done {
        ignoreFirstConsumed := iBytesConsumed == 0;
      }
      place := StartEnd(done);
    }

    /** Go on to decode, or try again later. */
    method AfterStart(done: bool, ghost x: Answers)
      requires Valid() && place == StartEnd(done)
      modifies this`phase, this`posted, this`place
      ensures Valid() && Model() == Next(old(Model()), x) && place == (if done then DecodeFill else Resting)
      ensures phase == old(phase) || phase == Decoding
    {
      hide Ring.Window;
      if done {
        phase := Decoding;
      } else if !prepForNext {
        posted := posted + 1;
      }
      place := if done then DecodeFill else Resting;
    }

    method LeaveEarly(ghost s: State)
      requires |s.rest| <= s.inputSize && Bounded(s) && Idles(s) && Refilled(s)
      modifies this`place
      ensures Valid() && Model() == s.(place := Resting) && place == Resting
    {
      NothingTaken(s);
      place := Resting;
    }

    method GoOn(ghost s: State)
      requires |s.rest| <= s.inputSize && Bounded(Fill(s)) && Refilled(s)
      modifies this`iBytesConsumed, this`ignoreFirstConsumed, this`place
      ensures Valid() && Model() == Fill(s).(ignoreFirst := false, at := 0, place := DecodeUse)
      ensures iBytesConsumed == 0 && place == DecodeUse
    {
      hide Ring.Window, Fill, Taken;
      ignoreFirstConsumed := false;
      iBytesConsumed := 0;
      place := DecodeUse;
      assert iBuffSize > 0 ==> pbInpBuf[0..iBuffSize] == pbInpBuf[..iBuffSize];
    }

    /** The fill of `msbc_decoder_engine_decode` and its early return. */
    method DecodeFilling(ghost x: Answers) returns (idle: bool)
      requires Valid() && place == DecodeFill && Fits(Model(), x)
      modifies this`outputIndex, this`iBuffSize, this`iBytesConsumed, this`ignoreFirstConsumed, this`place, pbInpBuf
      ensures Valid() && Model() == Next(old(Model()), x)
      ensures place == (if idle then Resting else DecodeUse) && (!idle ==> iBytesConsumed == 0)
    {
      hide Ring.Window, Taken, Fill, Rest;
      ghost var s := Model();
      FillKeeps(s);
      FillFrame(s);
      var bytesRead := FillUp();
      idle := !ignoreFirstConsumed && iBytesConsumed == 0 && bytesRead == 0;
      if idle {
        LeaveEarly(s);
      } else {
        GoOn(s);
      }
    }

    /** What the codec reports in `msbc_decoder_engine_decode`. */
    method DecodeReport(x: Answers)
      requires Valid() && place == DecodeUse && iBytesConsumed == 0 && Fits(Model(), x)
      modifies this`iBytesConsumed, this`dynamicConsumed, this`consumed, this`place
      ensures Valid() && Model() == Next(old(Model()), x) && place == DecodeGrant
    {
      hide Ring.Window, Wrap, Rest;
      CodecUses(x.used, DecodeGrant);
    }

    /** The end of `msbc_decoder_engine_decode`. */
    method DecodeRequest(x: Answers)
      requires Valid() && place == DecodeGrant
      modifies this`dynamicConsumed, this`allRequestDataReceived, this`requestDataSize, this`place
      ensures Valid() && Model() == Next(old(Model()), x) && place == Resting
    {
      hide Ring.Window, Due, Wrap;
      RequestMore(x.channel);
      place := Resting;
    }

    // ---- The handler, and what interrupts it ----

    /** The schedule `es` lets the handler return. */
    ghost predicate Scheduled(es: seq<Event>, i: nat)
      reads this, buffer, pbInpBuf
    {
      Valid() && i <= |es| && LegalRun(Model(), es[i..]) && Run(Model(), es[i..]).place == Resting
    }

    /** `msbc_decoder_prepare_for_next`. */
    method PrepareForNext()
      requires Valid()
      modifies this`prepForNext
      ensures Valid() && Model() == old(Model()).(prepForNext := true)
    {
      prepForNext := true;
    }

    /** Since the state `s`, the events `o..i` of the schedule have happened. */
    ghost predicate Since(s: State, es: seq<Event>, o: nat, i: nat)
      reads this, buffer, pbInpBuf
    {
      Scheduled(es, i) && o <= i && LegalRun(s, es[o..]) && Model() == Reach(s, es, o, i)
    }

    /** The interrupts from place `i` of the schedule on, up to the next step of the handler. */
    method Interrupts(es: seq<Event>, i: nat, ghost s: State, ghost o: nat) returns (j: nat)
      requires Since(s, es, o, i)
      modifies this`requestDataSize, this`allRequestDataReceived, this`totalInput, this`inputIndex,
               this`phase, this`posted, this`received, this`prepForNext, buffer
      ensures Since(s, es, o, j) && i <= j
      ensures (forall k :: i <= k < j ==> !es[k].Handler?) && (j < |es| ==> es[j].Handler?)
      ensures old(phase) != Idle ==> phase == old(phase)
      ensures place != Resting ==> j < |es|
    {
      hide Run, LegalRun, Reach, DecoderModel.Receive, Ring.Window;
      j := i;
      while j < |es| && !es[j].Handler?
        invariant Since(s, es, o, j) && i <= j
        invariant forall k :: i <= k < j ==> !es[k].Handler?
        invariant old(phase) != Idle ==> phase == old(phase)
      {
        RunAt(Model(), es, j);
        ReachStep(s, es, o, j);
        match es[j] {
          case Frame(data) => Receive(data);
          case PrepareForNext => PrepareForNext();
        }
        j := j + 1;
      }
      if j == |es| {
        assert es[j..] == [];
        RunNone(Model());
      }
    }

    /** Its first step, and the interrupts while the codec runs. */
    method BeginStart(es: seq<Event>, i: nat, ghost s: State, ghost o: nat) returns (j: nat)
      requires Since(s, es, o, i) && place == StartFill && phase != Idle && i < |es| && es[i].Handler?
      modifies this, buffer, pbInpBuf
      ensures Since(s, es, o, j) && i < j < |es| && es[j].Handler?
      ensures place == StartUse && phase == old(phase) && pbInpBuf == old(pbInpBuf)
    {
      hide Run, LegalRun, Reach, Next, Fits, Shaped, Model, Bounded;
      RunAt(Model(), es, i);
      ReachStep(s, es, o, i);
      StartFilling(es[i].x);
      j := Interrupts(es, i + 1, s, o);
    }

    /** `msbc_decoder_engine_start`, interrupted between its steps as the schedule says. */
    method EngineStart(es: seq<Event>, i: nat, ghost s: State, ghost o: nat) returns (done: bool, j: nat)
      requires Since(s, es, o, i) && place == StartFill && phase != Idle && i < |es| && es[i].Handler?
      modifies this, buffer, pbInpBuf
      ensures Since(s, es, o, j) && i < j < |es| && es[j].Handler?
      ensures place == StartEnd(done) && phase == old(phase) && pbInpBuf == old(pbInpBuf)
    {
      hide Run, LegalRun, Reach, Next, Fits, Shaped, Model, Bounded;
      j := BeginStart(es, i, s, o);
      RunAt(Model(), es, j);
      ReachStep(s, es, o, j);
      done := es[j].x.done;
      StartReport(es[j].x);
      j := Interrupts(es, j + 1, s, o);
      RunAt(Model(), es, j);
      ReachStep(s, es, o, j);
      StartRequest(done, es[j].x);
      j := Interrupts(es, j + 1, s, o);
    }

    /** Its last two steps. */
    method EndDecode(es: seq<Event>, i: nat, ghost s: State, ghost o: nat) returns (j: nat)
      requires Since(s, es, o, i) && place == DecodeUse && phase != Idle && i < |es| && es[i].Handler?
      requires iBytesConsumed == 0
      modifies this, buffer, pbInpBuf
      ensures Since(s, es, o, j) && i < j && place == Resting && pbInpBuf == old(pbInpBuf)
    {
      hide Run, LegalRun, Reach, Next, Fits, Shaped, Model, Bounded;
      RunAt(Model(), es, i);
      ReachStep(s, es, o, i);
      DecodeReport(es[i].x);
      j := Interrupts(es, i + 1, s, o);
      RunAt(Model(), es, j);
      ReachStep(s, es, o, j);
      DecodeRequest(es[j].x);
      j := j + 1;
    }

    /** `msbc_decoder_engine_decode`, interrupted likewise. */
    method EngineDecode(es: seq<Event>, i: nat, ghost s: State, ghost o: nat) returns (j: nat)
      requires Since(s, es, o, i) && place == DecodeFill && phase != Idle && i < |es| && es[i].Handler?
      modifies this, buffer, pbInpBuf
      ensures Since(s, es, o, j) && i < j && place == Resting && pbInpBuf == old(pbInpBuf)
    {
      hide Run, LegalRun, Reach, Next, Fits, Shaped, Model, Bounded;
      RunAt(Model(), es, i);
      ReachStep(s, es, o, i);
      var idle := DecodeFilling(es[i].x);
      if idle {
        return i + 1;
      }
      j := Interrupts(es, i + 1, s, o);
      j := EndDecode(es, j, s, o);
    }

    /** The states of the handler from `Initiating` on. */
    method StartThenDecode(es: seq<Event>, i: nat, ghost s: State, ghost o: nat) returns (j: nat)
      requires Since(s, es, o, i) && place == StartFill && phase != Idle && i < |es| && es[i].Handler?
      modifies this, buffer, pbInpBuf
      ensures Since(s, es, o, j) && i < j && place == Resting && pbInpBuf == old(pbInpBuf)
    {
      hide Run, LegalRun, Reach, Next, Fits, Shaped, Model, Bounded;
      var done, k := EngineStart(es, i, s, o);
      RunAt(Model(), es, k);
      ReachStep(s, es, o, k);
      AfterStart(done, es[k].x);
      if !done {
        return k + 1;
      }
      j := Interrupts(es, k + 1, s, o);
      j := EngineDecode(es, j, s, o);
    }

    /** `msbc_decoder_do_decoder_handler`: each state falls through to the next. It executes the events
        `i..j` of the schedule, its own steps and what comes between them. */
    method DoDecoderHandler(es: seq<Event>, i: nat) returns (j: nat)
      requires Scheduled(es, i) && place == Resting && i < |es| && es[i].Handler?
      modifies this, buffer, pbInpBuf
      ensures Scheduled(es, j) && i < j && Model() == Reach(old(Model()), es, i, j)
      ensures place == Resting && (pbInpBuf == old(pbInpBuf) || fresh(pbInpBuf))
    {
      hide Run, LegalRun, Next, Fits, Shaped, Model, Bounded;
      ghost var s := Model();
      RunAt(s, es, i);
      ReachStep(s, es, i, i);
      var state := Enter(es[i].x);
      j := Interrupts(es, i + 1, s, i);
      if state == Idle || state == Buffering {
        RunAt(Model(), es, j);
        ReachStep(s, es, i, j);
        var enough := Check(es[j].x);
        if !enough {
          return j + 1;
        }
        j := Interrupts(es, j + 1, s, i);
      }
      if state == Decoding {
        j := EngineDecode(es, j, s, i);
      } else {
        j := StartThenDecode(es, j, s, i);
      }
    }
  }

  lemma NothingTaken(s: State)
    requires |s.rest| <= s.inputSize && Taken(s) == 0
    ensures Fill(s) == s
  {
  }
}
