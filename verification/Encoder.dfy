/** The encoder as the firmware has it: a buffer level, a frame list with two counters, loops. */
module Encoder {
  import opened Machine
  import opened EncoderModel
  import opened FrameQueue

  function TotalLength(q: seq<seq<Byte>>): nat {
    |Flatten(q)|
  }

  datatype Packet = Nothing | Packet(header: nat, payload: seq<Byte>, length: nat)

  class MsbcEncoder {
    var pbInpBuf: array<Byte>
    var bufferLevel: nat
    var iBuffSize: nat
    var iBytesConsumed: nat
    var uiInitDone: bool
    var calls: seq<Call>               // calls of the codec so far, of either kind

    var frameList: seq<seq<Byte>>
    var frameCount: Word
    var dataLength: Word
    var ready: bool

    ghost var consumed: seq<Byte>
    ghost var frames: seq<seq<Byte>>   // all frames the codec has put out
    ghost var gone: seq<Departure>
    ghost var sending: Option<seq<seq<Byte>>>
    ghost var replies: seq<seq<seq<Byte>>>

    ghost predicate Valid()
      reads this
    {
      && bufferLevel <= pbInpBuf.Length
      && frameCount == |frameList|
      && dataLength == Wrap(TotalLength(frameList))
      && NonEmpty(frameList) && (sending.Some? ==> NonEmpty(sending.value))
      && Partition(Frames())
    }

    ghost function Frames(): Store
      reads this
    {
      Store(frameList, sending, gone, frames, replies)
    }

    ghost function Input(): Chunker
      reads this, pbInpBuf
      requires bufferLevel <= pbInpBuf.Length
    {
      Chunker(pbInpBuf[..bufferLevel], uiInitDone, calls, consumed, frames)
    }

    /** `msbc_encoder_init`, once the codec has said how large its input buffer is. */
    constructor (uiInpSize: nat)
      ensures Valid() && ready && pbInpBuf.Length == uiInpSize && fresh(pbInpBuf)
      ensures Input() == Chunker([], false, [], [], []) && Frames() == EMPTY
    {
      pbInpBuf := new Byte[uiInpSize];
      bufferLevel, iBuffSize, iBytesConsumed, uiInitDone := 0, 0, 0, false;
      frameList, frameCount, dataLength, ready := [], 0, 0, true;
      calls, consumed, frames, gone, sending, replies := [], [], [], [], None, [];
    }

    /** `co_list_pop_front` and the counters that go with it. */
    method PopFront(ghost fate: Fate) returns (frame: seq<Byte>)
      requires Valid() && frameList != [] && (fate == Sent ==> Legal(Frames(), Taken))
      modifies this`frameList, this`frameCount, this`dataLength, this`gone, this`sending
      ensures Valid() && frame == old(frameList[0])
      ensures Frames() == if fate == Sent then Take(old(Frames())) else Drop(old(Frames()))
      ensures frameCount == |frameList| && dataLength == Wrap(|Flatten(frameList)|)
    {
      hide Partition, Flatten;
      frame := frameList[0];
      if fate == Sent {
        TakePartition(Frames());
      } else {
        DropPartition(Frames());
      }
      ghost var drop: int := |frame|;
      WrapAdd(TotalLength(frameList), -drop);
      FlattenFirst(frameList);
      frameList := frameList[1..];
      frameCount := frameCount - 1;
      dataLength := Wrap(dataLength - |frame|);
      gone := gone + [Departure(frame, fate)];
      if fate == Sent {
        sending := Some(sending.value + [frame]);
      }
    }

    /** The list part of `msbc_encoder_engine_encode`. */
    method StoreFrame(out: seq<Byte>)
      requires Valid() && out != []
      modifies this`frameList, this`frameCount, this`dataLength, this`gone, this`sending, this`frames
      ensures Valid() && Frames() == Push(old(Frames()), out) && sending == old(sending)
      ensures frameCount == |frameList| && dataLength == Wrap(|Flatten(frameList)|)
    {
      hide FramesOf, SentOf, Flatten, Wrap;
      if frameCount >= MAX_STORED {
        var dropped := PopFront(Dropped);
      }
      AppendPartition(Frames(), out);
      FlattenLast(frameList, out);
      WrapAdd(TotalLength(frameList), |out|);
      frameList := frameList + [out];
      frameCount := frameCount + 1;
      dataLength := Wrap(dataLength + |out|);
      frames := frames + [out];
    }

    /** `msbc_encoder_engine_start`. */
    method EngineStart(c: Codec)
      requires Valid() && c.start(calls, pbInpBuf[..]).used <= pbInpBuf.Length
      modifies this`calls, this`uiInitDone, this`iBytesConsumed, this`consumed
      ensures Valid() && calls == old(calls) + [Call(false, pbInpBuf[..])]
      ensures var reply := c.start(old(calls), pbInpBuf[..]);
              && uiInitDone == reply.done && iBytesConsumed == reply.used
              && consumed == old(consumed) + pbInpBuf[..][..reply.used]
    {
      var reply := c.start(calls, pbInpBuf[..]);
      calls := calls + [Call(false, pbInpBuf[..])];
      uiInitDone := reply.done;
      iBytesConsumed := reply.used;
      consumed := consumed + pbInpBuf[..][..iBytesConsumed];
    }

    /** `msbc_encoder_engine_encode`. */
    method EngineEncode(c: Codec)
      requires Valid() && c.encode(calls, pbInpBuf[..]).used <= pbInpBuf.Length
      modifies this`calls, this`iBytesConsumed, this`consumed,
               this`frameList, this`frameCount, this`dataLength, this`gone, this`sending, this`frames
      ensures Valid() && calls == old(calls) + [Call(true, pbInpBuf[..])]
      ensures var reply := c.encode(old(calls), pbInpBuf[..]);
              && iBytesConsumed == reply.used
              && consumed == old(consumed) + pbInpBuf[..][..reply.used]
              && Frames() == if reply.out != [] then Push(old(Frames()), reply.out) else old(Frames())
    {
      var reply := c.encode(calls, pbInpBuf[..]);
      calls := calls + [Call(true, pbInpBuf[..])];
      if reply.out != [] {
        StoreFrame(reply.out);
      }
      iBytesConsumed := reply.used;
      consumed := consumed + pbInpBuf[..][..iBytesConsumed];
    }

    /** The call of the engine on a full buffer and the shift of what it left. */
    method RunEngine(c: Codec)
      requires Valid() && bufferLevel == pbInpBuf.Length && Used(c, Input()) <= pbInpBuf.Length
      modifies this`calls, this`uiInitDone, this`iBuffSize, this`iBytesConsumed, this`consumed,
               this`bufferLevel, this`frameList, this`frameCount, this`dataLength, this`gone, this`sending,
               this`frames, pbInpBuf
      ensures Valid() && Input() == Engine(c, old(Input()))
    {
      hide Partition, Flatten, NonEmpty, Wrap;
      ghost var held := pbInpBuf[..];
      assert Input().held == held;
      iBuffSize := pbInpBuf.Length;
      if !uiInitDone {
        EngineStart(c);
      } else {
        EngineEncode(c);
      }
      ShiftBack();
      assert Input().held == held[iBytesConsumed..];
    }

    /** `memcpy` of the unused end of the full buffer to its front. */
    method ShiftBack()
      requires iBuffSize == pbInpBuf.Length && iBytesConsumed <= iBuffSize
      modifies this`bufferLevel, pbInpBuf
      ensures bufferLevel == iBuffSize - iBytesConsumed
      ensures pbInpBuf[..bufferLevel] == old(pbInpBuf[..])[iBytesConsumed..]
    {
      var lastSpace := iBuffSize - iBytesConsumed;
      if lastSpace != 0 {
        forall k | 0 <= k < lastSpace { pbInpBuf[k] := pbInpBuf[iBytesConsumed + k]; }
        bufferLevel := lastSpace;
      } else {
        bufferLevel := 0;
      }
    }

    /** One `memcpy` behind the buffer level. */
    method Append(data: seq<Byte>)
      requires Valid() && bufferLevel + |data| <= pbInpBuf.Length
      modifies this`bufferLevel, pbInpBuf
      ensures Valid() && Input() == old(Input()).(held := old(Input().held) + data)
    {
      ghost var held := pbInpBuf[..bufferLevel];
      forall k | 0 <= k < |data| { pbInpBuf[bufferLevel + k] := data[k]; }
      assert pbInpBuf[..bufferLevel] == held;
      bufferLevel := bufferLevel + |data|;
      assert pbInpBuf[..bufferLevel] == held + data;
    }

    /** One pass of the loop: fill the buffer and call the engine, or keep what is too little. */
    method Deliver(buffer: seq<Byte>, c: Codec) returns (rest: seq<Byte>)
      requires Valid() && Sane(c, pbInpBuf.Length) && buffer != []
      modifies this`calls, this`uiInitDone, this`iBuffSize, this`iBytesConsumed, this`consumed,
               this`bufferLevel, this`frameList, this`frameCount, this`dataLength, this`gone, this`sending,
               this`frames, pbInpBuf
      ensures Valid() && Delivery(Input(), rest) == Pass(c, pbInpBuf.Length, Delivery(old(Input()), buffer))
    {
      hide Engine, Partition, Flatten, NonEmpty, Wrap;
      var lastSpace := pbInpBuf.Length - bufferLevel;
      if |buffer| >= lastSpace {
        Append(buffer[..lastSpace]);
        RunEngine(c);
        rest := buffer[lastSpace..];
      } else {
        Append(buffer);
        rest := [];
      }
    }

    /** The loop of `msbc_encoder_recv_frame`, which ends after `n` passes at most. */
    method DeliverAll(buffer: seq<Byte>, c: Codec, ghost n: nat)
      requires Valid() && Sane(c, pbInpBuf.Length) && Ends(c, pbInpBuf.Length, Delivery(Input(), buffer), n)
      modifies this`calls, this`uiInitDone, this`iBuffSize, this`iBytesConsumed, this`consumed, this`bufferLevel,
               this`frameList, this`frameCount, this`dataLength, this`gone, this`sending, this`frames, pbInpBuf
      ensures Valid()
      ensures Delivery(Input(), []) == Passes(c, pbInpBuf.Length, Delivery(old(Input()), buffer), n)
    {
      hide Pass, Sane, Partition, Flatten, NonEmpty, Wrap;
      ghost var size, d, k := pbInpBuf.Length, Delivery(Input(), buffer), n;
      var rest := buffer;
      while |rest| > 0
        invariant Valid() && Fits(c, size, Delivery(Input(), rest))
        invariant Passes(c, size, Delivery(Input(), rest), k) == Passes(c, size, d, n)
        decreases k
      {
        rest := Deliver(rest, c);
        k := k - 1;
      }
      NothingLeft(c, size, Delivery(Input(), rest), k);
    }

    /** `msbc_encoder_recv_frame`, for whatever input its loop ends on. */
    method RecvFrame(buffer: seq<Byte>, c: Codec)
      requires Valid() && Sane(c, pbInpBuf.Length)
      requires ready ==> Settles(c, pbInpBuf.Length, Delivery(Input(), buffer))
      modifies this`calls, this`uiInitDone, this`iBuffSize, this`iBytesConsumed, this`consumed,
               this`bufferLevel, this`frameList, this`frameCount, this`dataLength, this`gone, this`sending,
               this`frames, pbInpBuf
      ensures Valid()
      ensures Input() == if ready then Feed(c, pbInpBuf.Length, Delivery(old(Input()), buffer)) else old(Input())
    {
      if !ready {
        return;
      }
      ghost var size, d := pbInpBuf.Length, Delivery(Input(), buffer);
      ghost var n: nat :| Ends(c, size, d, n);
      FeedIs(c, size, d, n);
      DeliverAll(buffer, c, n);
    }

    /** The interrupts that store frames from place `i` of the schedule on. */
    method Interrupts(es: seq<FrameQueue.Event>, i: nat) returns (j: nat)
      requires Valid() && i <= |es| && LegalRun(Frames(), es[i..])
      modifies this`frameList, this`frameCount, this`dataLength, this`gone, this`sending, this`frames
      ensures Valid() && sending == old(sending)
      ensures i <= j <= |es| && (forall k :: i <= k < j ==> es[k].Encoded?) && (j < |es| ==> !es[j].Encoded?)
      ensures LegalRun(Frames(), es[j..]) && Run(Frames(), es[j..]) == Run(old(Frames()), es[i..])
    {
      hide Valid, Push, Run, LegalRun;
      j := i;
      while j < |es| && es[j].Encoded?
        invariant Valid() && sending == old(sending)
        invariant i <= j <= |es| && (forall k :: i <= k < j ==> es[k].Encoded?)
        invariant LegalRun(Frames(), es[j..]) && Run(Frames(), es[j..]) == Run(old(Frames()), es[i..])
      {
        RunAt(Frames(), es, j);
        StoreFrame(es[j].frame);
        j := j + 1;
      }
    }

    /** One pass of the loop of a request. */
    method SendOne(es: seq<FrameQueue.Event>, i: nat) returns (frame: seq<Byte>, j: nat)
      requires Valid() && Legal(Frames(), Taken) && i < |es| && es[i] == Taken && LegalRun(Frames(), es[i..])
      modifies this`frameList, this`frameCount, this`dataLength, this`gone, this`sending, this`frames
      ensures Valid() && sending.Some? && sending.value == old(sending.value) + [frame]
      ensures i < j <= |es| && (forall k :: i < k < j ==> es[k].Encoded?) && (j < |es| ==> !es[j].Encoded?)
      ensures LegalRun(Frames(), es[j..]) && Run(Frames(), es[j..]) == Run(old(Frames()), es[i..])
    {
      hide Partition, Flatten, NonEmpty, Run, LegalRun, Wrap;
      RunAt(Frames(), es, i);
      frame := PopFront(Sent);
      j := Interrupts(es, i + 1);
    }

    /** The end of a request. */
    method EndReply(ghost es: seq<FrameQueue.Event>, ghost i: nat)
      requires Valid() && i < |es| && es[i] == Replied && LegalRun(Frames(), es[i..])
      modifies this`sending, this`replies
      ensures Valid() && Frames() == Reply(old(Frames()))
      ensures LegalRun(Frames(), es[i + 1..]) && Run(Frames(), es[i + 1..]) == Run(old(Frames()), es[i..])
    {
      hide Partition, Flatten, Run, LegalRun, Wrap;
      RunAt(Frames(), es, i);
      ReplyPartition(Frames());
      replies, sending := replies + (if sending.value != [] then [sending.value] else []), None;
    }

    method BeginRequest(es: seq<FrameQueue.Event>) returns (i: nat)
      requires Valid() && LegalRun(Frames(), es) && es != [] && es[0] == Asked
      modifies this`frameList, this`frameCount, this`dataLength, this`gone, this`sending, this`frames
      ensures Valid() && sending == Some([])
      ensures 1 <= i <= |es| && (forall k :: 1 <= k < i ==> es[k].Encoded?) && (i < |es| ==> !es[i].Encoded?)
      ensures LegalRun(Frames(), es[i..]) && Run(Frames(), es[i..]) == Run(old(Frames()), es)
    {
      hide Flatten, Run, LegalRun, Wrap;
      assert es[0..] == es;
      RunAt(Frames(), es, 0);
      sending := Some([]);
      i := Interrupts(es, 1);
    }

    /** `msbc_encoder_recv_frame_req`: up to four of the oldest frames leave in one packet. Interrupts
        are off during each single pop only; the schedule `es` says what they store in between. */
    method RecvFrameReq(channel: bool, es: seq<FrameQueue.Event>) returns (packet: Packet, ghost p: seq<seq<Byte>>)
      requires Valid() && sending.None?
      requires ready && channel ==> LegalRun(Frames(), es) && Request(es)
      modifies this`frameList, this`frameCount, this`dataLength, this`gone, this`sending, this`frames, this`replies
      ensures Valid()
      ensures Frames() == if ready && channel then Run(old(Frames()), es) else old(Frames())
      ensures replies == old(replies) + if p != [] then [p] else []
      ensures packet.Packet? <==> p != []
      ensures packet.Packet? ==> packet.payload == Flatten(p) && packet.length == 2 + |packet.payload| && |p| <= 4
      ensures packet.Packet? ==> packet.header == |p[|p| - 1]| % 65536
      ensures forall n: nat :: packet.Packet? && 0 < n < 65536 && Uniform(p, n) ==>
                packet.header == n && Split(packet.payload, packet.header) == p && (n <= 57 ==> packet.length <= 230)
    {
      hide Partition, Flatten, Run, LegalRun, Wrap, Split;
      packet, p := Nothing, [];
      if !ready || !channel {
        return;
      }
      var leftFrameToSend: nat := SUB_FRAMES;
      var singleFrameLen := 0;
      var payload: seq<Byte> := [];
      var length := 2;
      var i := BeginRequest(es);
      PayloadEmptyIff([]);
      while leftFrameToSend != 0 && frameCount != 0
        invariant Valid() && sending.Some? && leftFrameToSend + |sending.value| == SUB_FRAMES
        invariant i < |es| && !es[i].Encoded? && replies == old(replies)
        invariant LegalRun(Frames(), es[i..]) && Run(Frames(), es[i..]) == Run(old(Frames()), es)
        invariant payload == Flatten(sending.value) && length == 2 + |payload|
        invariant sending.value != [] ==> singleFrameLen == Header(sending.value)
        decreases leftFrameToSend
      {
        RunAt(Frames(), es, i);
        ghost var sent := sending.value;
        var frame, j := SendOne(es, i);
        FlattenLast(sent, frame);
        payload := payload + frame;
        singleFrameLen := |frame| % 0x1_0000;
        length := length + |frame|;
        leftFrameToSend := leftFrameToSend - 1;
        i := j;
      }
      RunAt(Frames(), es, i);
      p := sending.value;
      PayloadEmptyIff(p);
      EndReply(es, i);
      RunEnd(Frames(), es[i + 1..]);
      if length > 2 {
        packet := Packet(singleFrameLen, payload, length);
      }
      UniformPacket(p);
    }

    /** `msbc_encoder_destroy`. */
    method Destroy()
      requires Valid()
      modifies this`frameList, this`frameCount, this`dataLength, this`gone, this`sending, this`ready
      ensures Valid() && !ready && frameList == [] && dataLength == 0 && sending == old(sending)
    {
      while frameCount != 0
        invariant Valid() && sending == old(sending)
        decreases frameCount
      {
        var frame := PopFront(Dropped);
      }
      dataLength := 0;
      ready := false;
    }
  }

  /** A receiver that splits by the header recovers frames of one length. */
  lemma UniformPacket(p: seq<seq<Byte>>)
    requires |p| <= 4
    ensures forall n: nat :: p != [] && 0 < n < 65536 && Uniform(p, n) ==>
              && Header(p) == n && Split(Flatten(p), Header(p)) == p
              && (n <= 57 ==> 2 + |Flatten(p)| <= 230)
  {
    hide Flatten, Split;
    forall n: nat | p != [] && 0 < n < 65536 && Uniform(p, n)
      ensures Header(p) == n && Split(Flatten(p), Header(p)) == p && (n <= 57 ==> 2 + |Flatten(p)| <= 230)
    {
      assert |p[|p| - 1]| == n;
      SplitUniform(p, n);
      if n <= 57 {
        PacketFits(p, n);
      }
    }
  }

  lemma FlattenFirst(q: seq<seq<Byte>>)
    requires q != []
    ensures |Flatten(q)| == |q[0]| + |Flatten(q[1..])|
  {
  }

  lemma FlattenLast(q: seq<seq<Byte>>, f: seq<Byte>)
    ensures Flatten(q + [f]) == Flatten(q) + f
  {
    FlattenAppend(q, [f]);
    assert Flatten([f]) == f + Flatten([f][1..]) == f;
  }

  lemma PayloadEmptyIff(q: seq<seq<Byte>>)
    requires NonEmpty(q)
    ensures Flatten(q) == [] <==> q == []
  {
  }
}
