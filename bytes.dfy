/** Optional values: `None` stands for JavaScript's `null` / `undefined`. */
module Wrappers {
  datatype Option<+T> = None | Some(value: T)
}

/** Bytes and the two Node `Buffer` operations the transformers use in place. */
module Bytes {

  newtype byte = x: int | 0 <= x < 256

  function Min(a: int, b: int): int
  {
    if a <= b then a else b
  }

  /** `n` zero bytes. */
  function Zeros(n: nat): (z: seq<byte>)
    ensures |z| == n
    ensures forall i :: 0 <= i < n ==> z[i] == 0
  {
    seq(n, _ => 0)
  }

  lemma AppendAssoc<T>(a: seq<T>, b: seq<T>, c: seq<T>)
    ensures a + (b + c) == (a + b) + c
  {
  }

  /** The concatenation of a sequence of frames (`Buffer.concat`). */
  function Flatten(frames: seq<seq<byte>>): seq<byte>
  {
    if frames == [] then [] else frames[0] + Flatten(frames[1..])
  }

  lemma {:induction false} FlattenAppend(a: seq<seq<byte>>, b: seq<seq<byte>>)
    ensures Flatten(a + b) == Flatten(a) + Flatten(b)
  {
    if a == [] {
      assert a + b == b;
    } else {
      assert (a + b)[1..] == a[1..] + b;
      FlattenAppend(a[1..], b);
    }
  }

  /** Frames of one common size flatten to that many bytes per frame. */
  lemma {:induction false} FlattenUniform(frames: seq<seq<byte>>, size: nat)
    requires forall k :: 0 <= k < |frames| ==> |frames[k]| == size
    ensures |Flatten(frames)| == |frames| * size
  {
    if frames != [] {
      FlattenUniform(frames[1..], size);
      assert |frames| * size == (|frames| - 1) * size + size;
    }
  }

  /** `src.copy(dst, dstStart, srcStart, srcEnd)`: copies as many bytes of
      `src[srcStart..srcEnd]` as fit into `dst` from `dstStart` on, and
      returns how many it copied. A `srcEnd` past the end of `src` is clamped. */
  method Copy(src: seq<byte>, srcStart: nat, srcEnd: nat, dst: array<byte>, dstStart: nat) returns (n: nat)
    requires srcStart <= Min(srcEnd, |src|) && dstStart <= dst.Length
    modifies dst
    ensures n == Min(Min(srcEnd, |src|) - srcStart, dst.Length - dstStart)
    ensures dst[..] == old(dst[..dstStart]) + src[srcStart..srcStart + n] + old(dst[dstStart + n..])
  {
    n := Min(Min(srcEnd, |src|) - srcStart, dst.Length - dstStart);
    var j := 0;
    while j < n
      invariant 0 <= j <= n
      invariant forall k :: 0 <= k < dstStart ==> dst[k] == old(dst[k])
      invariant forall k :: dstStart <= k < dstStart + j ==> dst[k] == src[srcStart + (k - dstStart)]
      invariant forall k :: dstStart + j <= k < dst.Length ==> dst[k] == old(dst[k])
    {
      dst[dstStart + j] := src[srcStart + j];
      j := j + 1;
    }
    ghost var want := old(dst[..dstStart]) + src[srcStart..srcStart + n] + old(dst[dstStart + n..]);
    assert |want| == dst.Length;
    forall k | 0 <= k < dst.Length
      ensures dst[k] == want[k]
    {
    }
    assert dst[..] == want;
  }

  /** `dst.fill(value, start, end)`. */
  method Fill(dst: array<byte>, value: byte, start: nat, end: nat)
    requires start <= end <= dst.Length
    modifies dst
    ensures dst[..] == old(dst[..start]) + seq(end - start, _ => value) + old(dst[end..])
  {
    var j := start;
    while j < end
      invariant start <= j <= end
      invariant forall k :: 0 <= k < start ==> dst[k] == old(dst[k])
      invariant forall k :: start <= k < j ==> dst[k] == value
      invariant forall k :: j <= k < dst.Length ==> dst[k] == old(dst[k])
    {
      dst[j] := value;
      j := j + 1;
    }
    ghost var want := old(dst[..start]) + seq(end - start, _ => value) + old(dst[end..]);
    assert |want| == dst.Length;
    forall k | 0 <= k < dst.Length
      ensures dst[k] == want[k]
    {
    }
    assert dst[..] == want;
  }
}
