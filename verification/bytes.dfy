/** Bytes, 16-bit little-endian fields, and the result type the decoders and encoders share. */
module Bytes {

  type Byte = x: int | 0 <= x < 256

  type U16 = x: int | 0 <= x < 0x1_0000

  /** An error return or a raised exception, without its message. */
  datatype Result<+T> = Ok(value: T) | Err {
    predicate IsFailure() {
      Err?
    }

    function PropagateFailure<U>(): Result<U>
      requires Err?
    {
      Err
    }

    function Extract(): T
      requires Ok?
    {
      value
    }
  }

  datatype Option<+T> = None | Some(value: T)

  /** The low byte of an integer of any size, as `& 0xFF` computes it. */
  function Low(v: int): Byte {
    v % 256
  }

  /** Both encoders keep only the low 16 bits of what they are given. */
  function U16LE(v: int): (bytes: seq<Byte>)
    ensures |bytes| == 2
    ensures U16At(bytes, 0) == v % 0x1_0000
  {
    [Low(v), Low(v / 256)]
  }

  function U16At(buf: seq<Byte>, pos: nat): U16
    requires pos + 2 <= |buf|
  {
    var low: int, high: int := buf[pos], buf[pos + 1];
    low + 256 * high
  }

  /** `piece` stands in `buf` at offset `pos`. */
  ghost predicate At(buf: seq<Byte>, pos: nat, piece: seq<Byte>) {
    pos + |piece| <= |buf| && buf[pos..pos + |piece|] == piece
  }

  lemma AtIndex(buf: seq<Byte>, pos: nat, piece: seq<Byte>, i: nat)
    requires At(buf, pos, piece) && i < |piece|
    ensures buf[pos + i] == piece[i]
  {
    assert buf[pos..pos + |piece|][i] == piece[i];
  }

  lemma AtSplit(buf: seq<Byte>, pos: nat, a: seq<Byte>, b: seq<Byte>)
    ensures At(buf, pos, a + b) <==> At(buf, pos, a) && At(buf, pos + |a|, b)
  {
    if At(buf, pos, a + b) {
      assert buf[pos..pos + |a|] == (a + b)[..|a|];
      assert buf[pos + |a|..pos + |a| + |b|] == (a + b)[|a|..];
    }
    if At(buf, pos, a) && At(buf, pos + |a|, b) {
      assert buf[pos..pos + |a + b|] == buf[pos..pos + |a|] + buf[pos + |a|..pos + |a| + |b|];
    }
  }
}
