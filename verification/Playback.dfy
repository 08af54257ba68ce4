/** The PCM playback queue: chunks with read offsets, drained 512 bytes per interrupt. */
module Playback {
  import opened Machine

  const SINGLE_FRAME: nat := 512
  const DECODER_THD: int := 16000 * 2 / 50

  /** A queued chunk; `offset` bytes of it have been played. */
  datatype Chunk = Chunk(data: seq<Byte>, offset: nat) {
    predicate Valid() {
      offset <= |data|
    }
  }

  /** What the chunks hold, played or not. */
  function Data(q: seq<Chunk>): (d: seq<seq<Byte>>)
    ensures |d| == |q|
  {
    seq(|q|, i requires 0 <= i < |q| => q[i].data)
  }

  ghost predicate AllValid(q: seq<Chunk>) {
    forall i :: 0 <= i < |q| ==> q[i].Valid()
  }

  /** The bytes still to be played, oldest first. */
  ghost function Pending(q: seq<Chunk>): seq<Byte>
    requires AllValid(q)
  {
    if q == [] then [] else q[0].data[q[0].offset..] + Pending(q[1..])
  }

  lemma {:induction false} PendingAppend(q: seq<Chunk>, c: Chunk)
    requires AllValid(q) && c.Valid()
    ensures AllValid(q + [c]) && Pending(q + [c]) == Pending(q) + c.data[c.offset..]
  {
    if q == [] {
      assert [c][1..] == [];
      assert Pending([c]) == c.data[c.offset..] + Pending([]);
    } else {
      assert (q + [c])[1..] == q[1..] + [c];
      PendingAppend(q[1..], c);
    }
  }

  // ---- Doubling of the sample rate ----

  /** Every 16-bit sample twice. */
  function Doubled(s: seq<Byte>): seq<Byte> {
    if |s| < 2 then [] else [s[0], s[1], s[0], s[1]] + Doubled(s[2..])
  }

  lemma {:induction false} DoubledIndex(s: seq<Byte>, i: nat)
    requires |s| % 2 == 0 && 2 * i < |s|
    ensures |Doubled(s)| == 2 * |s|
    ensures Doubled(s)[4 * i] == s[2 * i] && Doubled(s)[4 * i + 1] == s[2 * i + 1]
    ensures Doubled(s)[4 * i + 2] == s[2 * i] && Doubled(s)[4 * i + 3] == s[2 * i + 1]
    decreases |s|
  {
    DoubledLength(s);
    if i > 0 {
      DoubledLength(s[2..]);
      DoubledIndex(s[2..], i - 1);
    }
  }

  lemma {:induction false} DoubledLength(s: seq<Byte>)
    requires |s| % 2 == 0
    ensures |Doubled(s)| == 2 * |s|
    decreases |s|
  {
    if s != [] {
      DoubledLength(s[2..]);
    }
  }

  /** The last byte of an odd number is dropped. */
  lemma {:induction false} DoubledEven(s: seq<Byte>)
    ensures Doubled(s) == Doubled(s[..2 * (|s| / 2)]) && |Doubled(s)| == 4 * (|s| / 2)
    decreases |s|
  {
    if |s| >= 2 {
      var n := 2 * (|s| / 2);
      assert s[..n][2..] == s[2..][..2 * (|s[2..]| / 2)];
      DoubledEven(s[2..]);
    }
  }

  lemma {:induction false} DoubledAppend(a: seq<Byte>, b: seq<Byte>)
    requires |a| % 2 == 0
    ensures Doubled(a + b) == Doubled(a) + Doubled(b)
    decreases |a|
  {
    if a == [] {
      assert a + b == b;
    } else {
      assert (a + b)[2..] == a[2..] + b;
      DoubledAppend(a[2..], b);
    }
  }

  // ---- What one interrupt writes ----

  /** How many of the pending bytes fit into one frame. */
  function Played(pending: seq<Byte>): nat {
    Min(|pending|, SINGLE_FRAME)
  }

  function FrameOf(pending: seq<Byte>): (f: seq<Byte>)
    ensures |f| == SINGLE_FRAME
  {
    pending[..Played(pending)] + Zeros(SINGLE_FRAME - Played(pending))
  }

  class Player {
    var queue: seq<Chunk>
    var pcmSizeInList: Word
    var posted: nat                   // MP3_DECODER_DO_DECODE messages inserted

    ghost var chunks: seq<seq<Byte>>  // the data of all chunks ever queued
    ghost var freed: seq<seq<Byte>>   // and of those freed since

    ghost predicate Valid()
      reads this
    {
      && AllValid(queue) && pcmSizeInList == Wrap(|Pending(queue)|)
      && chunks == freed + Data(queue)
    }

    constructor ()
      ensures Valid() && queue == [] && posted == 0 && chunks == []
    {
      queue, pcmSizeInList, posted := [], 0, 0;
      chunks, freed := [], [];
    }

    /** The first chunk leaves the list and is freed. */
    method DropFirst()
      requires AllValid(queue) && queue != [] && chunks == freed + Data(queue)
      modifies this`queue, this`freed
      ensures queue == old(queue)[1..] && AllValid(queue) && chunks == freed + Data(queue)
    {
      freed := freed + [queue[0].data];
      assert Data(queue) == [queue[0].data] + Data(queue[1..]);
      queue := queue[1..];
    }

    /** `native_playback_clear`. */
    method Clear()
      requires Valid()
      modifies this
      ensures Valid() && queue == [] && posted == old(posted)
      ensures chunks == old(chunks) && freed == chunks
    {
      while queue != []
        invariant posted == old(posted) && chunks == old(chunks)
        invariant AllValid(queue) && chunks == freed + Data(queue)
        decreases |queue|
      {
        DropFirst();
      }
      pcmSizeInList := 0;
    }

    /** Ask for more data when less than the threshold is left. */
    method PostIfLow()
      modifies this`posted
      ensures posted == old(posted) + if pcmSizeInList < 640 then 1 else 0
    {
      if pcmSizeInList < DECODER_THD {
        posted := posted + 1;
      }
    }

    /** The loop of `native_playback_recv_frame`. */
    method DoubleInto(buffer: array<Byte>, data: seq<Byte>)
      requires buffer.Length == 2 * |data|
      modifies buffer
      ensures |Doubled(data)| <= buffer.Length && buffer[..|Doubled(data)|] == Doubled(data)
    {
      var i := 0;
      while i < |data| / 2
        invariant 0 <= i <= |data| / 2
        invariant buffer[..4 * i] == Doubled(data[..2 * i])
      {
        buffer[4 * i], buffer[4 * i + 1] := data[2 * i], data[2 * i + 1];
        buffer[4 * i + 2], buffer[4 * i + 3] := data[2 * i], data[2 * i + 1];
        DoubleOneMore(data, i);
        assert buffer[..4 * i + 4] == buffer[..4 * i] + [data[2 * i], data[2 * i + 1], data[2 * i], data[2 * i + 1]];
        i := i + 1;
      }
      DoubledEven(data);
    }

    method Append(chunk: Chunk)
      requires Valid() && chunk.offset == 0 && |chunk.data| < WORD_LIMIT
      modifies this`queue, this`pcmSizeInList, this`chunks
      ensures Valid() && Pending(queue) == old(Pending(queue)) + chunk.data
      ensures chunks == old(chunks) + [chunk.data]
    {
      PendingAppend(queue, chunk);
      WrapAdd(|Pending(queue)|, |chunk.data|);
      assert Data(queue + [chunk]) == Data(queue) + [chunk.data];
      queue := queue + [chunk];
      pcmSizeInList := Wrap(pcmSizeInList + |chunk.data|);
      chunks := chunks + [chunk.data];
    }

    /** `native_playback_recv_frame`: every sample is queued twice. Of an odd number of bytes the last
        one is lost, and two bytes that were never written, `junk`, are queued in its place. */
    method RecvFrame(data: seq<Byte>) returns (ghost junk: seq<Byte>)
      requires Valid() && 2 * |data| < WORD_LIMIT
      modifies this`queue, this`pcmSizeInList, this`chunks, this`posted
      ensures Valid() && |junk| == 2 * (|data| % 2)
      ensures Pending(queue) == old(Pending(queue)) + Doubled(data) + junk
      ensures chunks == old(chunks) + [Doubled(data) + junk]
      ensures posted == old(posted) + if Wrap(|Pending(queue)|) < 640 then 1 else 0
    {
      hide Doubled, Pending, Data, Wrap;
      var buffer := new Byte[2 * |data|];
      DoubleInto(buffer, data);
      DoubledEven(data);
      junk := buffer[|Doubled(data)|..];
      assert buffer[..] == Doubled(data) + junk;
      Append(Chunk(buffer[..], 0));
      PostIfLow();
    }

    /** One pass of the loop: copy from the first chunk as much as is needed or left of it. */
    method PlayChunk(spk: array<Byte>, pos: nat) returns (copied: nat)
      requires Valid() && queue != [] && spk.Length == SINGLE_FRAME && pos < SINGLE_FRAME
      modifies this`queue, this`pcmSizeInList, this`freed, spk
      ensures Valid() && pos + copied <= SINGLE_FRAME
      ensures copied <= |old(Pending(queue))| && Pending(queue) == old(Pending(queue))[copied..]
      ensures spk[..pos + copied] == old(spk[..pos]) + old(Pending(queue))[..copied]
      ensures pos + copied == SINGLE_FRAME || |queue| < |old(queue)|
    {
      ghost var pending, before := Pending(queue), spk[..pos];
      var pcmData := queue[0];
      var needed := SINGLE_FRAME - pos;
      var lastLength := |pcmData.data| - pcmData.offset;
      copied := if lastLength > needed then needed else lastLength;
      forall k | 0 <= k < copied { spk[pos + k] := pcmData.data[pcmData.offset + k]; }
      assert spk[..pos + copied] == before + pending[..copied];
      if lastLength > needed {
        queue := queue[0 := Chunk(pcmData.data, pcmData.offset + needed)];
        assert queue[1..] == old(queue)[1..];
        assert Data(queue) == Data(old(queue));
      } else {
        DropFirst();
      }
      assert Pending(queue) == pending[copied..];
      pcmSizeInList := Wrap(pcmSizeInList - copied);
      ghost var taken: int := copied;
      WrapAdd(|pending|, -taken);
    }

    /** `memset` over the rest of the frame. */
    method Silence(spk: array<Byte>, pos: nat)
      requires spk.Length == SINGLE_FRAME && pos <= SINGLE_FRAME
      modifies spk
      ensures spk[..] == old(spk[..pos]) + Zeros(SINGLE_FRAME - pos)
    {
      ghost var before := spk[..pos];
      forall k | pos <= k < SINGLE_FRAME { spk[k] := 0; }
      assert spk[..pos] == before;
      assert spk[pos..] == Zeros(SINGLE_FRAME - pos);
      assert spk[..] == spk[..pos] + spk[pos..];
    }

    /** `native_playback_ipc_tx`: exactly one frame, padded only if the queue runs dry. */
    method IpcTx(spk: array<Byte>)
      requires Valid() && spk.Length == 512
      modifies this`queue, this`pcmSizeInList, this`freed, this`posted, spk
      ensures Valid() && spk[..] == FrameOf(old(Pending(queue)))
      ensures Pending(queue) == old(Pending(queue))[Played(old(Pending(queue)))..]
      ensures posted == old(posted) + if Wrap(|Pending(queue)|) < 640 then 1 else 0
    {
      ghost var pending := Pending(queue);
      var pos := 0;
      while queue != [] && pos != SINGLE_FRAME
        invariant Valid() && pos <= SINGLE_FRAME && pos <= |pending| && posted == old(posted)
        invariant spk[..pos] == pending[..pos] && Pending(queue) == pending[pos..]
        decreases SINGLE_FRAME - pos, |queue|
      {
        var copied := PlayChunk(spk, pos);
        TakeMore(pending, pos, copied);
        pos := pos + copied;
      }
      Silence(spk, pos);
      PostIfLow();
    }
  }

  lemma TakeMore(s: seq<Byte>, n: nat, more: nat)
    requires n + more <= |s|
    ensures s[..n] + s[n..][..more] == s[..n + more] && s[n..][more..] == s[n + more..]
  {
  }

  /** One more sample doubled. */
  lemma DoubleOneMore(data: seq<Byte>, i: nat)
    requires 2 * i + 1 < |data|
    ensures Doubled(data[..2 * i + 2]) ==
            Doubled(data[..2 * i]) + [data[2 * i], data[2 * i + 1], data[2 * i], data[2 * i + 1]]
  {
    var last := data[2 * i..2 * i + 2];
    assert data[..2 * i + 2] == data[..2 * i] + last;
    DoubledAppend(data[..2 * i], last);
    assert Doubled(last) == [last[0], last[1], last[0], last[1]] + Doubled(last[2..]);
  }

  // ---- Whole runs ----

  datatype Event = Recv(data: seq<Byte>) | Tx

  function Step(pending: seq<Byte>, e: Event): seq<Byte> {
    match e
    case Recv(data) => pending + Doubled(data)
    case Tx => pending[Played(pending)..]
  }

  /** The bytes pending after a run. */
  function Left(pending: seq<Byte>, es: seq<Event>): seq<Byte>
    decreases |es|
  {
    if es == [] then pending else Left(Step(pending, es[0]), es[1..])
  }

  /** Everything played during a run, padding excluded. */
  function Output(pending: seq<Byte>, es: seq<Event>): seq<Byte>
    decreases |es|
  {
    if es == [] then []
    else (if es[0].Tx? then pending[..Played(pending)] else []) + Output(Step(pending, es[0]), es[1..])
  }

  /** Everything received during a run. */
  function Input(es: seq<Event>): seq<Byte>
    decreases |es|
  {
    if es == [] then [] else (if es[0].Recv? then es[0].data else []) + Input(es[1..])
  }

  predicate EvenLengths(es: seq<Event>) {
    forall i :: 0 <= i < |es| && es[i].Recv? ==> |es[i].data| % 2 == 0
  }

  lemma RecvConserves(pending: seq<Byte>, data: seq<Byte>, input: seq<Byte>)
    requires |data| % 2 == 0
    ensures (pending + Doubled(data)) + Doubled(input) == pending + Doubled(data + input)
  {
    DoubledAppend(data, input);
  }

  lemma TxConserves(pending: seq<Byte>, output: seq<Byte>, left: seq<Byte>, input: seq<Byte>)
    requires output + left == pending[Played(pending)..] + Doubled(input)
    ensures (pending[..Played(pending)] + output) + left == pending + Doubled(input)
  {
    var head, tail := pending[..Played(pending)], pending[Played(pending)..];
    assert (head + output) + left == head + (output + left);
    assert head + (tail + Doubled(input)) == (head + tail) + Doubled(input);
    assert head + tail == pending;
  }

  /** No byte is lost, repeated or reordered between reception and playback. */
  lemma {:induction false} RunConserves(pending: seq<Byte>, es: seq<Event>)
    requires EvenLengths(es)
    ensures Output(pending, es) + Left(pending, es) == pending + Doubled(Input(es))
    decreases |es|
  {
    hide Doubled, Played;
    if es == [] {
      assert pending + Doubled([]) == pending by {
        DoubledLength([]);
      }
    } else {
      var next, rest := Step(pending, es[0]), es[1..];
      RunConserves(next, rest);
      match es[0] {
        case Recv(data) =>
          RecvConserves(pending, data, Input(rest));
          assert [] + Output(next, rest) == Output(next, rest);
        case Tx =>
          TxConserves(pending, Output(next, rest), Left(next, rest), Input(rest));
          assert [] + Input(rest) == Input(rest);
      }
    }
  }

  /** A frame has 512 bytes: the next pending ones, or all that are pending and then zeros. */
  lemma PaddingIff(pending: seq<Byte>)
    ensures |FrameOf(pending)| == 512
    ensures |pending| >= 512 ==> FrameOf(pending) == pending[..512] && Step(pending, Tx) == pending[512..]
    ensures |pending| < 512 ==> FrameOf(pending)[..|pending|] == pending && Step(pending, Tx) == []
    ensures forall i :: |pending| <= i < 512 ==> FrameOf(pending)[i] == 0
  {
    if |pending| >= 512 {
      assert pending[..512] + Zeros(0) == pending[..512];
    }
  }
}
