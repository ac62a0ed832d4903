/** The re-segmentation shared by both transformers: cut fixed-size frames off
    the front of a byte run for as long as STRICTLY more than one frame's worth
    remains (`while (index + size < length)`), so that the last full frame of
    the run is held back rather than emitted. */
module Reseg {
  import opened Bytes

  datatype Segments = Segments(frames: seq<seq<byte>>, rest: seq<byte>)

  /** Every frame is exactly `size` bytes; the rest is at most one frame and
      is empty only when the input is. */
  function Cut(data: seq<byte>, size: nat): (r: Segments)
    requires size > 0
    ensures forall k :: 0 <= k < |r.frames| ==> |r.frames[k]| == size
    ensures |r.rest| <= size
    ensures |r.rest| == 0 <==> |data| == 0
    decreases |data|
  {
    if |data| <= size then Segments([], data)
    else
      var s := Cut(data[size..], size);
      Segments([data[..size]] + s.frames, s.rest)
  }

  /** Conservation across calls: frames already emitted, then the new frames
      and rest, are the old output followed by the new data. */
  lemma CutExtends(emitted: seq<seq<byte>>, data: seq<byte>, size: nat)
    requires size > 0
    ensures Flatten(emitted + Cut(data, size).frames) + Cut(data, size).rest == Flatten(emitted) + data
  {
    CutConserves(data, size);
    FlattenAppend(emitted, Cut(data, size).frames);
  }

  /** One step of the loop: with more than one frame left after `index`, the
      next frame is cut and the rest comes from what follows it. */
  lemma CutStep(data: seq<byte>, index: nat, size: nat)
    requires size > 0 && index + size < |data|
    ensures Cut(data[index..], size).frames == [data[index..index + size]] + Cut(data[index + size..], size).frames
    ensures Cut(data[index..], size).rest == Cut(data[index + size..], size).rest
  {
    assert data[index..][size..] == data[index + size..];
    assert data[index..][..size] == data[index..index + size];
  }

  /** Where the loop stops: at most one frame left, and it is all rest. */
  lemma CutShort(data: seq<byte>, index: nat, size: nat)
    requires size > 0 && index <= |data| <= index + size
    ensures Cut(data[index..], size) == Segments([], data[index..])
  {
  }

  /** How many frames `Cut` emits: every full frame but the last one reached. */
  function FrameCount(len: nat, size: nat): nat
    requires size > 0
  {
    if len == 0 then 0 else (len - 1) / size
  }

  lemma MulMono(a: int, b: int, d: int)
    requires a <= b && d >= 0
    ensures a * d <= b * d
  {
    assert b * d - a * d == (b - a) * d;
  }

  /** The quotient is the one multiple of `d` that brackets `x`. */
  lemma DivUnique(x: int, d: int, q: int)
    requires d > 0 && q * d <= x < q * d + d
    ensures x / d == q
  {
    var r := x / d;
    assert x == r * d + x % d;
    if r > q {
      MulMono(q + 1, r, d);
    } else if r < q {
      MulMono(r + 1, q, d);
    }
  }

  lemma DivStep(len: nat, size: nat)
    requires size > 0 && len > size
    ensures FrameCount(len, size) == FrameCount(len - size, size) + 1
  {
    var x := len - size - 1;
    var q := x / size;
    assert x == q * size + x % size;
    assert (q + 1) * size == q * size + size;
    DivUnique(len - 1, size, q + 1);
  }

  /** No byte is lost, duplicated or reordered. */
  lemma {:induction false} CutConserves(data: seq<byte>, size: nat)
    requires size > 0
    ensures Flatten(Cut(data, size).frames) + Cut(data, size).rest == data
    decreases |data|
  {
    if |data| > size {
      CutConserves(data[size..], size);
      assert data == data[..size] + data[size..];
    }
  }

  /** How many frames `Cut` emits, and that they lie within the input. */
  lemma {:induction false} CutCount(data: seq<byte>, size: nat)
    requires size > 0
    ensures |Cut(data, size).frames| == FrameCount(|data|, size)
    ensures |Cut(data, size).frames| * size <= |data|
    decreases |data|
  {
    if |data| > size {
      CutCount(data[size..], size);
      DivStep(|data|, size);
      var n := |Cut(data[size..], size).frames|;
      assert (n + 1) * size == n * size + size;
    }
  }

  lemma MulSucc(k: nat, size: nat)
    ensures (k + 1) * size == k * size + size
  {
  }

  /** Frame k is bytes [k * size, (k + 1) * size) of the input. */
  lemma {:induction false} CutFrameAt(data: seq<byte>, size: nat, k: nat)
    requires size > 0 && k < |Cut(data, size).frames|
    ensures (k + 1) * size <= |data|
    ensures Cut(data, size).frames[k] == data[k * size..(k + 1) * size]
    decreases |data|
  {
    assert |data| > size;
    var tail := data[size..];
    assert Cut(data, size).frames == [data[..size]] + Cut(tail, size).frames;
    if k > 0 {
      CutFrameAt(tail, size, k - 1);
      var lo := (k - 1) * size;
      var hi := k * size;
      assert hi == lo + size && (k + 1) * size == hi + size by {
        MulSucc(k - 1, size);
        MulSucc(k, size);
      }
      assert tail[lo..hi] == data[lo + size..hi + size];
    }
  }

  /** What is left over is everything after the emitted frames. */
  lemma CutRest(data: seq<byte>, size: nat)
    requires size > 0
    ensures |Cut(data, size).frames| * size <= |data|
    ensures Cut(data, size).rest == data[|Cut(data, size).frames| * size..]
  {
    var s := Cut(data, size);
    CutConserves(data, size);
    FlattenUniform(s.frames, size);
    assert data == Flatten(s.frames) + s.rest;
  }

  /** A run that is an exact multiple of the frame size keeps its last full
      frame back: n frames in, n - 1 emitted, one full frame left over. */
  lemma ExactMultipleHoldsBack(data: seq<byte>, size: nat, n: nat)
    requires size > 0 && n >= 1 && |data| == n * size
    ensures |Cut(data, size).frames| == n - 1
    ensures Cut(data, size).rest == data[(n - 1) * size..] && |Cut(data, size).rest| == size
  {
    var lo := (n - 1) * size;
    assert lo + size == |data| by {
      assert (n - 1) * size + size == n * size;
    }
    DivUnique(|data| - 1, size, n - 1);
    CutCount(data, size);
    assert |Cut(data, size).frames| == n - 1;
    CutRest(data, size);
  }
}
