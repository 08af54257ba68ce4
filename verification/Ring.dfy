/** The ring behind the decoder: the bytes from one index up to, and not including, another. */
module Ring {
  import opened Machine

  function At(n: nat, x: nat): nat
    requires x < 2 * n
  {
    if x < n then x else x - n
  }

  /** Equal indices mean empty; a ring of `n` bytes therefore holds at most `n - 1`. */
  function Window(b: seq<Byte>, o: nat, i: nat): seq<Byte>
    requires o <= |b| && i <= |b|
  {
    if o <= i then b[o..i] else b[o..] + b[..i]
  }

  lemma WindowLength(b: seq<Byte>, o: nat, i: nat)
    requires o <= |b| && i <= |b|
    ensures |Window(b, o, i)| == if o <= i then i - o else |b| + i - o
  {
  }

  lemma WindowIndex(b: seq<Byte>, o: nat, i: nat)
    requires o < |b| && i < |b|
    ensures |Window(b, o, i)| == if o <= i then i - o else |b| + i - o
    ensures forall k :: 0 <= k < |Window(b, o, i)| ==> Window(b, o, i)[k] == b[At(|b|, o + k)]
  {
  }

  /** While a byte stays unused, equal indices mean that the ring is empty, never that it is full. */
  lemma EmptyIff(b: seq<Byte>, o: nat, i: nat)
    requires o < |b| && i < |b|
    ensures Window(b, o, i) == [] <==> o == i
    ensures |Window(b, o, i)| < |b|
  {
    WindowIndex(b, o, i);
  }

  /** Writing behind the input index appends, whether or not the write wraps. */
  lemma Push(b: seq<Byte>, b': seq<Byte>, o: nat, i: nat, data: seq<Byte>)
    requires o < |b| && i < |b| && |b'| == |b|
    requires |Window(b, o, i)| + |data| < |b|
    requires forall k :: 0 <= k < |data| ==> b'[At(|b|, i + k)] == data[k]
    requires forall j :: 0 <= j < |b| && !(i <= j < i + |data|) && !(i <= j + |b| < i + |data|) ==> b'[j] == b[j]
    ensures Window(b', o, At(|b|, i + |data|)) == Window(b, o, i) + data
  {
    WindowIndex(b, o, i);
    var i' := At(|b|, i + |data|);
    WindowIndex(b', o, i');
    var w, w' := Window(b, o, i), Window(b', o, i');
    assert |w'| == |w| + |data|;
    forall k | 0 <= k < |w'| ensures w'[k] == (w + data)[k] {
      if k < |w| {
        assert b'[At(|b|, o + k)] == b[At(|b|, o + k)];
      } else {
        assert At(|b|, o + k) == At(|b|, i + (k - |w|));
      }
    }
  }

  /** Advancing the output index over `n` bytes that do not wrap drops them. */
  lemma Pop(b: seq<Byte>, o: nat, i: nat, n: nat)
    requires o < |b| && i < |b| && n <= |Window(b, o, i)| && o + n <= |b|
    ensures Window(b, At(|b|, o + n), i) == Window(b, o, i)[n..]
    ensures b[o..o + n] == Window(b, o, i)[..n]
  {
    WindowIndex(b, o, i);
    WindowIndex(b, At(|b|, o + n), i);
  }

  /** Two reads in a row are one. */
  lemma TwoReads(before: seq<Byte>, fifo: seq<Byte>, n: nat, more: nat)
    requires n + more <= |fifo|
    ensures (before + fifo[..n]) + fifo[n..][..more] == before + fifo[..n + more]
    ensures fifo[n..][more..] == fifo[n + more..]
  {
    assert fifo[..n] + fifo[n..][..more] == fifo[..n + more];
  }
}
