/** The optional value used for the worker's process slot and for per-step results. */
module Options {

  datatype Option<+T> = None | Some(value: T)
}

/** Raw bytes as they come off the capture process's standard output. */
module Bytes {

  /** One unsigned 8-bit sample. */
  type Byte = b: int | 0 <= b < 256

  /** A run of bytes: one read result, a partial buffer, or a whole frame. */
  type Chunk = seq<Byte>

  /** The in-order concatenation of a sequence of chunks. */
  function Concat(cs: seq<Chunk>): (r: Chunk)
    decreases |cs|
  {
    if cs == [] then [] else Concat(cs[..|cs| - 1]) + cs[|cs| - 1]
  }

  /** Appending one chunk to the sequence extends the concatenation by exactly that chunk. */
  lemma ConcatSnoc(a: seq<Chunk>, c: Chunk)
    ensures Concat(a + [c]) == Concat(a) + c
  {
  }

  lemma {:induction false} ConcatAppend(a: seq<Chunk>, b: seq<Chunk>)
    ensures Concat(a + b) == Concat(a) + Concat(b)
    decreases |b|
  {
    if b == [] {
      assert a + b == a;
    } else {
      var init := b[..|b| - 1];
      assert a + b == (a + init) + [b[|b| - 1]];
      ConcatSnoc(a + init, b[|b| - 1]);
      ConcatAppend(a, init);
      ConcatSnoc(init, b[|b| - 1]);
      assert b == init + [b[|b| - 1]];
    }
  }

  /** A frame is not blank when its largest sample is positive (numpy's `max() > 0`);
      an empty buffer has no maximum and so is never "not blank". */
  predicate NotAllZero(f: Chunk)
  {
    exists i :: 0 <= i < |f| && f[i] > 0
  }
}
