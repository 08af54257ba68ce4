/** The machine the firmware runs on: 32-bit words, and the arithmetic C gives them. */
module Machine {

  const WORD_LIMIT: int := 0x1_0000_0000
  const TOP_BIT: int := 0x8000_0000

  /** `size_t`, `uint32_t` and pointers. Assigning to a `Word` proves that nothing wrapped. */
  type Word = x: int | 0 <= x < WORD_LIMIT

  type Byte = x: int | 0 <= x < 256

  /** Unsigned arithmetic where the source relies on (or cannot rule out) wrapping. */
  function Wrap(x: int): Word {
    x % WORD_LIMIT
  }

  lemma WrapAdd(x: int, n: int)
    ensures Wrap(Wrap(x) + n) == Wrap(x + n)
  {
  }

  lemma WrapSmall(x: int)
    requires 0 <= x < WORD_LIMIT
    ensures Wrap(x) == x
  {
  }

  function Min(a: int, b: int): int {
    if a <= b then a else b
  }

  function Max(a: int, b: int): int {
    if a >= b then a else b
  }

  datatype Option<T> = None | Some(value: T)

  function Zeros(n: nat): (z: seq<Byte>)
    ensures |z| == n && forall i :: 0 <= i < n ==> z[i] == 0
  {
    if n == 0 then [] else [0] + Zeros(n - 1)
  }

  /** Concatenation of a sequence of sequences, oldest first. */
  function Flatten<T>(ss: seq<seq<T>>): seq<T> {
    if ss == [] then [] else ss[0] + Flatten(ss[1..])
  }

  lemma {:induction false} FlattenAppend<T>(a: seq<seq<T>>, b: seq<seq<T>>)
    ensures Flatten(a + b) == Flatten(a) + Flatten(b)
  {
    if a == [] {
      assert a + b == b;
    } else {
      assert (a + b)[1..] == a[1..] + b;
      FlattenAppend(a[1..], b);
    }
  }
}
