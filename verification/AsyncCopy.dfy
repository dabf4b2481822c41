/** The work-group copies of the OpenCL C kernel runtime, byte by byte.  A
    pointer is an array and an index into it; source and destination are
    different objects.  The event result, always 0, is left out. */
module AsyncCopy {
  import opened ByteRows

  /** `for (i=0;i<n;i++) *dest++=*source++;`, the body of the linear copies and
      of each row of the others. */
  method CopyRun(dst: array<byte>, dest: nat, src: array<byte>, source: nat, n: nat)
    requires dst != src && dest + n <= dst.Length && source + n <= src.Length
    modifies dst
    ensures dst[..] == Overlay(old(dst[..]), dest, src[source..source + n])
  {
    var d, s := dest, source;
    for i := 0 to n
      invariant d == dest + i && s == source + i
      invariant forall x | 0 <= x < dst.Length ::
                  dst[x] == if dest <= x < dest + i then src[source + (x - dest)] else old(dst[x])
    {
      dst[d] := src[s];
      d, s := d + 1, s + 1;
    }
  }

  /** async_work_group_copy_generic: num_elements elements of size_elements bytes. */
  method LinearCopy(dst: array<byte>, dstAt: nat, src: array<byte>, srcAt: nat, size: nat, num: nat)
    requires dst != src && dstAt + num * size <= dst.Length && srcAt + num * size <= src.Length
    modifies dst
    ensures dst[..] == Overlay(old(dst[..]), dstAt, src[srcAt..srcAt + num * size])
  {
    CopyRun(dst, dstAt, src, srcAt, num * size);
  }

  /** Copies h rows of w bytes, `pitch` bytes apart in the source, to one run. */
  method GatherRows(dst: array<byte>, dstAt: nat, src: array<byte>, start: nat, w: nat, pitch: nat, h: nat)
    requires dst != src && Fits(src.Length, start, w, pitch, h) && dstAt + Times(h, w) <= dst.Length
    modifies dst
    ensures dst[..] == Overlay(old(dst[..]), dstAt, Gather(src[..], start, w, pitch, h))
  {
    ghost var before, input := dst[..], src[..];
    var dest, line := dstAt, start;
    hide Overlay, Gather, Times, Row, Fits;
    GatherNone(input, start, w, pitch, before, dstAt);
    for j := 0 to h
      invariant src[..] == input
      invariant Gathered(dst[..], before, dstAt, input, start, w, pitch, j, line, dest)
    {
      line, dest := GatherRow(dst, before, dstAt, src, start, w, pitch, j, h, line, dest);
    }
  }

  /** The first j rows are copied, and the next one comes from `line`. */
  ghost predicate Gathered(now: seq<byte>, before: seq<byte>, dstAt: nat, input: seq<byte>, start: nat,
                           w: nat, pitch: nat, j: nat, line: nat, dest: nat)
  {
    && dest == dstAt + Times(j, w) <= |before| && line == Row(start, pitch, j)
    && Fits(|input|, start, w, pitch, j)
    && now == Overlay(before, dstAt, Gather(input, start, w, pitch, j))
  }

  method GatherRow(dst: array<byte>, ghost before: seq<byte>, ghost dstAt: nat, src: array<byte>, ghost start: nat,
                   w: nat, pitch: nat, ghost j: nat, ghost h: nat, line: nat, dest: nat)
    returns (line': nat, dest': nat)
    requires dst != src && |before| == dst.Length && j < h
    requires Fits(src.Length, start, w, pitch, h) && dstAt + Times(h, w) <= dst.Length
    requires Gathered(dst[..], before, dstAt, src[..], start, w, pitch, j, line, dest)
    modifies dst
    ensures Gathered(dst[..], before, dstAt, src[..], start, w, pitch, j + 1, line', dest')
  {
    hide Overlay, Gather, Times, Row, Fits;
    ghost var input := src[..];
    RowInside(w, h, j);
    FitsEach(src.Length, start, w, pitch, h, j);
    CopyRun(dst, dest, src, line, w);
    assert src[..] == input && input[line..line + w] == src[line..line + w];
    GatherRun(input, start, w, pitch, j, before, dstAt, line, dest);
    line', dest' := line + pitch, dest + w;
  }

  lemma GatherNone(src: seq<byte>, start: nat, w: nat, pitch: nat, before: seq<byte>, at: nat)
    requires at <= |before|
    ensures Fits(|src|, start, w, pitch, 0) && Times(0, w) == 0 && Row(start, pitch, 0) == start
    ensures Overlay(before, at, Gather(src, start, w, pitch, 0)) == before
  {
  }

  /** One more row gathered is one more run laid over the destination. */
  lemma GatherRun(src: seq<byte>, start: nat, w: nat, pitch: nat, j: nat, before: seq<byte>, at: nat,
                  row: nat, dest: nat)
    requires Fits(|src|, start, w, pitch, j) && row + w <= |src| && dest + w <= |before|
    requires row == Row(start, pitch, j) && dest == at + Times(j, w)
    ensures Fits(|src|, start, w, pitch, j + 1)
    ensures dest + w == at + Times(j + 1, w) && row + pitch == Row(start, pitch, j + 1)
    ensures Overlay(Overlay(before, at, Gather(src, start, w, pitch, j)), dest, src[row..row + w])
            == Overlay(before, at, Gather(src, start, w, pitch, j + 1))
  {
    OverlayTwice(before, at, Gather(src, start, w, pitch, j), src[row..row + w]);
  }

  /** Copies one run to h rows of w bytes, `pitch` bytes apart in the destination. */
  method ScatterRows(dst: array<byte>, start: nat, src: array<byte>, srcAt: nat, w: nat, pitch: nat, h: nat)
    requires dst != src && Fits(dst.Length, start, w, pitch, h) && srcAt + Times(h, w) <= src.Length
    modifies dst
    ensures dst[..] == Scatter(old(dst[..]), start, w, pitch, h, src[srcAt..srcAt + Times(h, w)])
  {
    ghost var before, input := dst[..], src[..];
    var source, line := srcAt, start;
    hide Overlay, Scatter, Times, Row, Fits;
    ScatterNone(before, start, w, pitch);
    assert input[srcAt..source] == [];
    for j := 0 to h
      invariant src[..] == input
      invariant Scattered(dst[..], before, start, input, srcAt, w, pitch, j, line, source)
    {
      line, source := ScatterRow(dst, before, start, src, srcAt, w, pitch, j, h, line, source);
    }
    assert input[srcAt..source] == src[srcAt..srcAt + Times(h, w)];
  }

  /** The first j rows are copied, and the next one goes to `line`. */
  ghost predicate Scattered(now: seq<byte>, before: seq<byte>, start: nat, input: seq<byte>, srcAt: nat,
                            w: nat, pitch: nat, j: nat, line: nat, source: nat)
  {
    && source == srcAt + Times(j, w) <= |input| && line == Row(start, pitch, j)
    && Fits(|before|, start, w, pitch, j)
    && now == Scatter(before, start, w, pitch, j, input[srcAt..source])
  }

  method ScatterRow(dst: array<byte>, ghost before: seq<byte>, ghost start: nat, src: array<byte>, ghost srcAt: nat,
                    w: nat, pitch: nat, ghost j: nat, ghost h: nat, line: nat, source: nat)
    returns (line': nat, source': nat)
    requires dst != src && |before| == dst.Length && j < h
    requires Fits(dst.Length, start, w, pitch, h) && srcAt + Times(h, w) <= src.Length
    requires Scattered(dst[..], before, start, src[..], srcAt, w, pitch, j, line, source)
    modifies dst
    ensures Scattered(dst[..], before, start, src[..], srcAt, w, pitch, j + 1, line', source')
  {
    hide Overlay, Scatter, Times, Row, Fits;
    ghost var input := src[..];
    RowInside(w, h, j);
    FitsEach(dst.Length, start, w, pitch, h, j);
    CopyRun(dst, line, src, source, w);
    assert src[..] == input && input[source..source + w] == src[source..source + w];
    ScatterRun(before, start, w, pitch, j, input, srcAt, line, source);
    line', source' := line + pitch, source + w;
  }

  lemma ScatterNone(before: seq<byte>, start: nat, w: nat, pitch: nat)
    ensures Fits(|before|, start, w, pitch, 0) && Times(0, w) == 0 && Row(start, pitch, 0) == start
    ensures Scatter(before, start, w, pitch, 0, []) == before
  {
  }

  /** One more row scattered is one more run laid over the destination. */
  lemma ScatterRun(before: seq<byte>, start: nat, w: nat, pitch: nat, j: nat, src: seq<byte>, at: nat,
                   row: nat, source: nat)
    requires Fits(|before|, start, w, pitch, j) && row + w <= |before| && source + w <= |src|
    requires row == Row(start, pitch, j) && source == at + Times(j, w)
    ensures Fits(|before|, start, w, pitch, j + 1)
    ensures source + w == at + Times(j + 1, w) && row + pitch == Row(start, pitch, j + 1)
    ensures Overlay(Scatter(before, start, w, pitch, j, src[at..source]), row, src[source..source + w])
            == Scatter(before, start, w, pitch, j + 1, src[at..source + w])
  {
    var taken := src[at..source + w];
    assert taken[..Times(j, w)] == src[at..source] && taken[Times(j, w)..] == src[source..source + w];
  }

  // ---------------------------------------------------------------------
  // The 2D and strided copies.  `__local` copies into local memory, a gather;
  // `__global` copies out to global memory, a scatter.
  // ---------------------------------------------------------------------

  /** The byte offset of a rectangle in a buffer of `stride` elements a line. */
  function Corner(at: nat, size: nat, origin0: nat, origin1: nat, stride: nat): nat {
    at + size * (origin1 * stride + origin0)
  }

  /** Where line j of a rectangle starts: line origin1 + j of the buffer, element origin0. */
  function Line(at: nat, size: nat, origin0: nat, origin1: nat, stride: nat, j: nat): nat {
    at + size * ((origin1 + j) * stride + origin0)
  }

  /** Byte i of line j of the rectangle is at its place among the lines one after the other. */
  predicate SameByte(packed: seq<byte>, packedAt: nat, buffer: seq<byte>, bufferAt: nat, size: nat,
                     origin0: nat, origin1: nat, region0: nat, stride: nat, j: nat, i: nat)
  {
    var p := packedAt + j * (region0 * size) + i;
    var b := Line(bufferAt, size, origin0, origin1, stride, j) + i;
    p < |packed| && b < |buffer| && packed[p] == buffer[b]
  }

  predicate InRectangle(at: nat, size: nat, origin0: nat, origin1: nat, region0: nat, region1: nat, stride: nat, x: nat) {
    exists j: nat | j < region1 ::
      Line(at, size, origin0, origin1, stride, j) <= x < Line(at, size, origin0, origin1, stride, j) + region0 * size
  }

  lemma LineIsRow(at: nat, size: nat, origin0: nat, origin1: nat, stride: nat, j: nat)
    ensures Row(Corner(at, size, origin0, origin1, stride), size * stride, j) ==
            Line(at, size, origin0, origin1, stride, j)
  {
    TimesIsProduct(j, size * stride);
    var a, b := origin1 * stride + origin0, j * stride;
    assert (origin1 + j) * stride + origin0 == a + b;
    assert size * (a + b) == size * a + size * b;
    assert size * (j * stride) == j * (size * stride);
  }

  lemma GatheredByte(dst: seq<byte>, before: seq<byte>, dstAt: nat, src: seq<byte>, srcAt: nat, size: nat,
                     origin0: nat, origin1: nat, region0: nat, region1: nat, stride: nat, j: nat, i: nat)
    requires Fits(|src|, Corner(srcAt, size, origin0, origin1, stride), region0 * size, size * stride, region1)
    requires dstAt + Times(region1, region0 * size) <= |before|
    requires dst == Overlay(before, dstAt,
               Gather(src, Corner(srcAt, size, origin0, origin1, stride), region0 * size, size * stride, region1))
    requires j < region1 && i < region0 * size
    ensures SameByte(dst, dstAt, src, srcAt, size, origin0, origin1, region0, stride, j, i)
  {
    hide Corner, Row, Gather, Fits, Times;
    var w := region0 * size;
    GatherAt(src, Corner(srcAt, size, origin0, origin1, stride), w, size * stride, region1, j, i);
    LineIsRow(srcAt, size, origin0, origin1, stride, j);
    TimesIsProduct(j, w);
  }

  /** Byte i of line j of the source rectangle goes to byte i of packed line j, and no
      other byte changes. */
  method Copy2DLocal(dst: array<byte>, dstAt: nat, src: array<byte>, srcAt: nat, size: nat,
                     origin0: nat, origin1: nat, region0: nat, region1: nat, stride: nat)
    requires dst != src && dstAt + region1 * (region0 * size) <= dst.Length
    requires Fits(src.Length, Corner(srcAt, size, origin0, origin1, stride), region0 * size, size * stride, region1)
    modifies dst
    ensures Times(region1, region0 * size) == region1 * (region0 * size)
    ensures dst[..] == Overlay(old(dst[..]), dstAt,
              Gather(src[..], Corner(srcAt, size, origin0, origin1, stride), region0 * size, size * stride, region1))
    ensures forall j: nat, i: nat :: j < region1 && i < region0 * size ==>
              SameByte(dst[..], dstAt, src[..], srcAt, size, origin0, origin1, region0, stride, j, i)
    ensures forall x :: 0 <= x < dst.Length && !(dstAt <= x < dstAt + region1 * (region0 * size)) ==>
              dst[x] == old(dst[x])
  {
    hide Gather, SameByte, Corner;
    TimesIsProduct(region1, region0 * size);
    ghost var before := dst[..];
    CornerIs(srcAt, size, origin0, origin1, stride);
    var srcPointer := srcAt + size * (origin1 * stride + origin0);
    GatherRows(dst, dstAt, src, srcPointer, region0 * size, size * stride, region1);
    forall j: nat, i: nat | j < region1 && i < region0 * size
      ensures SameByte(dst[..], dstAt, src[..], srcAt, size, origin0, origin1, region0, stride, j, i)
    {
      GatheredByte(dst[..], before, dstAt, src[..], srcAt, size, origin0, origin1, region0, region1, stride, j, i);
    }
  }

  lemma CornerIs(at: nat, size: nat, origin0: nat, origin1: nat, stride: nat)
    ensures Corner(at, size, origin0, origin1, stride) == at + size * (origin1 * stride + origin0)
  {
  }

  lemma ScatteredByte(dst: seq<byte>, before: seq<byte>, dstAt: nat, src: seq<byte>, srcAt: nat, size: nat,
                      origin0: nat, origin1: nat, region0: nat, region1: nat, stride: nat, j: nat, i: nat)
    requires Fits(|before|, Corner(dstAt, size, origin0, origin1, stride), region0 * size, size * stride, region1)
    requires srcAt + Times(region1, region0 * size) <= |src|
    requires dst == Scatter(before, Corner(dstAt, size, origin0, origin1, stride), region0 * size, size * stride,
                            region1, src[srcAt..srcAt + Times(region1, region0 * size)])
    requires j < region1 && i < region0 * size && (region0 <= stride || region1 <= 1)
    ensures SameByte(src, srcAt, dst, dstAt, size, origin0, origin1, region0, stride, j, i)
  {
    hide Corner, Row, Scatter, Fits, Times;
    var start, w, pitch := Corner(dstAt, size, origin0, origin1, stride), region0 * size, size * stride;
    WithinStride(size, region0, stride);
    LineIsRow(dstAt, size, origin0, origin1, stride, j);
    ScatteredAt(dst, before, start, w, pitch, region1, src, srcAt, j, i);
    TimesIsProduct(j, w);
  }

  lemma WithinStride(size: nat, region0: nat, stride: nat)
    ensures region0 <= stride ==> region0 * size <= size * stride
  {
    if region0 <= stride {
      assert stride * size == region0 * size + (stride - region0) * size;
    }
  }

  lemma ScatteredAt(dst: seq<byte>, before: seq<byte>, start: nat, w: nat, pitch: nat, h: nat,
                    src: seq<byte>, srcAt: nat, j: nat, i: nat)
    requires Fits(|before|, start, w, pitch, h) && srcAt + Times(h, w) <= |src|
    requires dst == Scatter(before, start, w, pitch, h, src[srcAt..srcAt + Times(h, w)])
    requires j < h && i < w && (w <= pitch || h <= 1)
    ensures srcAt + Times(j, w) + i < |src| && Row(start, pitch, j) + i < |dst|
    ensures src[srcAt + Times(j, w) + i] == dst[Row(start, pitch, j) + i]
  {
    hide Scatter, Times, Row, Fits;
    var packed := src[srcAt..srcAt + Times(h, w)];
    ScatterAt(before, start, w, pitch, h, packed, j, i);
    assert packed[Times(j, w) + i] == src[srcAt + (Times(j, w) + i)];
  }

  lemma OutsideRectangle(dst: seq<byte>, before: seq<byte>, dstAt: nat, src: seq<byte>, size: nat,
                         origin0: nat, origin1: nat, region0: nat, region1: nat, stride: nat, x: nat)
    requires Fits(|before|, Corner(dstAt, size, origin0, origin1, stride), region0 * size, size * stride, region1)
    requires |src| == Times(region1, region0 * size)
    requires dst == Scatter(before, Corner(dstAt, size, origin0, origin1, stride), region0 * size, size * stride,
                            region1, src)
    requires x < |before| && !InRectangle(dstAt, size, origin0, origin1, region0, region1, stride, x)
    ensures dst[x] == before[x]
  {
    hide InRectangle, Corner, Scatter, Row, Fits;
    var start, w, pitch := Corner(dstAt, size, origin0, origin1, stride), region0 * size, size * stride;
    forall j: nat | j < region1
      ensures !(Row(start, pitch, j) <= x < Row(start, pitch, j) + w)
    {
      NotOnLine(dstAt, size, origin0, origin1, region0, region1, stride, x, j);
    }
    ScatterOutside(before, start, w, pitch, region1, src, x);
  }

  lemma NotOnLine(at: nat, size: nat, origin0: nat, origin1: nat, region0: nat, region1: nat, stride: nat,
                  x: nat, j: nat)
    requires !InRectangle(at, size, origin0, origin1, region0, region1, stride, x) && j < region1
    ensures var row := Row(Corner(at, size, origin0, origin1, stride), size * stride, j);
            !(row <= x < row + region0 * size)
  {
    LineIsRow(at, size, origin0, origin1, stride, j);
  }

  /** When lines do not overlap, byte i of packed line j goes to byte i of line j of the
      rectangle; no byte outside the rectangle changes. */
  method Copy2DGlobal(dst: array<byte>, dstAt: nat, src: array<byte>, srcAt: nat, size: nat,
                      origin0: nat, origin1: nat, region0: nat, region1: nat, stride: nat)
    requires dst != src && srcAt + region1 * (region0 * size) <= src.Length
    requires Fits(dst.Length, Corner(dstAt, size, origin0, origin1, stride), region0 * size, size * stride, region1)
    modifies dst
    ensures Times(region1, region0 * size) == region1 * (region0 * size)
    ensures dst[..] == Scatter(old(dst[..]), Corner(dstAt, size, origin0, origin1, stride), region0 * size,
                               size * stride, region1, src[srcAt..srcAt + region1 * (region0 * size)])
    ensures region0 <= stride || region1 <= 1 ==>
              forall j: nat, i: nat :: j < region1 && i < region0 * size ==>
                SameByte(src[..], srcAt, dst[..], dstAt, size, origin0, origin1, region0, stride, j, i)
    ensures forall x :: 0 <= x < dst.Length && !InRectangle(dstAt, size, origin0, origin1, region0, region1, stride, x) ==>
              dst[x] == old(dst[x])
  {
    hide Scatter, SameByte, Corner, InRectangle;
    TimesIsProduct(region1, region0 * size);
    ghost var before, n := dst[..], region1 * (region0 * size);
    CornerIs(dstAt, size, origin0, origin1, stride);
    var destPointer := dstAt + size * (origin1 * stride + origin0);
    ScatterRows(dst, destPointer, src, srcAt, region0 * size, size * stride, region1);
    ghost var input := src[..];
    assert input[srcAt..srcAt + n] == src[srcAt..srcAt + n];
    ghost var after := dst[..];
    forall j: nat, i: nat | (region0 <= stride || region1 <= 1) && j < region1 && i < region0 * size
      ensures SameByte(input, srcAt, after, dstAt, size, origin0, origin1, region0, stride, j, i)
    {
      ScatteredByte(after, before, dstAt, input, srcAt, size, origin0, origin1, region0, region1, stride, j, i);
    }
    forall x | 0 <= x < dst.Length && !InRectangle(dstAt, size, origin0, origin1, region0, region1, stride, x)
      ensures after[x] == before[x]
    {
      OutsideRectangle(after, before, dstAt, input[srcAt..srcAt + n], size, origin0, origin1, region0, region1, stride, x);
    }
  }

  /** Byte i of packed element k is that of the element k * stride of the buffer. */
  predicate SameElement(packed: seq<byte>, packedAt: nat, buffer: seq<byte>, bufferAt: nat, size: nat, stride: nat,
                        k: nat, i: nat)
  {
    var p, b := packedAt + k * size + i, bufferAt + k * (stride * size) + i;
    p < |packed| && b < |buffer| && packed[p] == buffer[b]
  }

  lemma GatheredElement(dst: seq<byte>, before: seq<byte>, dstAt: nat, src: seq<byte>, srcAt: nat, size: nat,
                        num: nat, stride: nat, k: nat, i: nat)
    requires Fits(|src|, srcAt, size, stride * size, num) && dstAt + Times(num, size) <= |before|
    requires dst == Overlay(before, dstAt, Gather(src, srcAt, size, stride * size, num))
    requires k < num && i < size
    ensures SameElement(dst, dstAt, src, srcAt, size, stride, k, i)
  {
    hide Gather, Fits;
    GatherAt(src, srcAt, size, stride * size, num, k, i);
    TimesIsProduct(k, size);
    TimesIsProduct(k, stride * size);
  }

  lemma ScatteredElement(dst: seq<byte>, before: seq<byte>, dstAt: nat, src: seq<byte>, srcAt: nat, size: nat,
                         num: nat, stride: nat, k: nat, i: nat)
    requires Fits(|before|, dstAt, size, stride * size, num) && srcAt + Times(num, size) <= |src|
    requires dst == Scatter(before, dstAt, size, stride * size, num, src[srcAt..srcAt + Times(num, size)])
    requires k < num && i < size && (stride >= 1 || num <= 1)
    ensures SameElement(src, srcAt, dst, dstAt, size, stride, k, i)
  {
    hide Scatter, Fits;
    WithinStride(size, 1, stride);
    assert 1 * size == size && size * stride == stride * size;
    ScatteredAt(dst, before, dstAt, size, stride * size, num, src, srcAt, k, i);
    TimesIsProduct(k, size);
    TimesIsProduct(k, stride * size);
  }

  method StridedCopyLocal(dst: array<byte>, dstAt: nat, src: array<byte>, srcAt: nat, size: nat, num: nat, stride: nat)
    requires dst != src && dstAt + num * size <= dst.Length
    requires Fits(src.Length, srcAt, size, stride * size, num)
    modifies dst
    ensures Times(num, size) == num * size
    ensures dst[..] == Overlay(old(dst[..]), dstAt, Gather(src[..], srcAt, size, stride * size, num))
    ensures forall k: nat, i: nat :: k < num && i < size ==>
              SameElement(dst[..], dstAt, src[..], srcAt, size, stride, k, i)
  {
    hide Gather, SameElement;
    TimesIsProduct(num, size);
    ghost var before := dst[..];
    GatherRows(dst, dstAt, src, srcAt, size, stride * size, num);
    forall k: nat, i: nat | k < num && i < size
      ensures SameElement(dst[..], dstAt, src[..], srcAt, size, stride, k, i)
    {
      GatheredElement(dst[..], before, dstAt, src[..], srcAt, size, num, stride, k, i);
    }
  }

  method StridedCopyGlobal(dst: array<byte>, dstAt: nat, src: array<byte>, srcAt: nat, size: nat, num: nat, stride: nat)
    requires dst != src && srcAt + num * size <= src.Length
    requires Fits(dst.Length, dstAt, size, stride * size, num)
    modifies dst
    ensures Times(num, size) == num * size
    ensures dst[..] == Scatter(old(dst[..]), dstAt, size, stride * size, num, src[srcAt..srcAt + num * size])
    ensures stride >= 1 || num <= 1 ==>
              forall k: nat, i: nat :: k < num && i < size ==>
                SameElement(src[..], srcAt, dst[..], dstAt, size, stride, k, i)
  {
    hide Scatter, SameElement;
    TimesIsProduct(num, size);
    ghost var before := dst[..];
    ScatterRows(dst, dstAt, src, srcAt, size, stride * size, num);
    ghost var input := src[..];
    assert input[srcAt..srcAt + num * size] == src[srcAt..srcAt + num * size];
    forall k: nat, i: nat | (stride >= 1 || num <= 1) && k < num && i < size
      ensures SameElement(input, srcAt, dst[..], dstAt, size, stride, k, i)
    {
      ScatteredElement(dst[..], before, dstAt, input, srcAt, size, num, stride, k, i);
    }
  }

  // ---------------------------------------------------------------------
  // What the pair of copies guarantees
  // ---------------------------------------------------------------------

  lemma RegionWithinStride(size: nat, region0: nat, stride: nat)
    requires size > 0
    ensures region0 * size <= size * stride <==> region0 <= stride
  {
    if region0 <= stride {
      assert stride * size == region0 * size + (stride - region0) * size;
    } else {
      assert region0 * size == stride * size + (region0 - stride) * size;
    }
  }

  /** Writing a rectangle and reading it back returns every buffer exactly when a
      region line is no longer than the stride, or there is one line at most. */
  lemma RectangleRoundTrip(dst: seq<byte>, start: nat, size: nat, region0: nat, region1: nat, stride: nat)
    requires size > 0 && Fits(|dst|, start, region0 * size, size * stride, region1)
    ensures (forall src: seq<byte> | |src| == Times(region1, region0 * size) ::
               Gather(Scatter(dst, start, region0 * size, size * stride, region1, src),
                      start, region0 * size, size * stride, region1) == src)
            <==> (region0 <= stride || region1 <= 1)
  {
    RegionWithinStride(size, region0, stride);
    RoundTripIff(dst, start, region0 * size, size * stride, region1);
  }

  /** Full lines, from the first element of line origin1 on, are the linear copy of as many
      elements. */
  lemma FullLinesAreLinear(src: seq<byte>, at: nat, size: nat, origin1: nat, stride: nat, region1: nat)
    requires Fits(|src|, Corner(at, size, 0, origin1, stride), stride * size, size * stride, region1)
    requires Corner(at, size, 0, origin1, stride) <= |src|
    ensures var start, n := at + size * origin1 * stride, region1 * (stride * size);
            && start + n <= |src|
            && Gather(src, Corner(at, size, 0, origin1, stride), stride * size, size * stride, region1)
               == src[start..start + n]
  {
    var start, w := Corner(at, size, 0, origin1, stride), stride * size;
    FullLineStart(at, size, origin1, stride);
    assert w == size * stride;
    hide Corner, Gather;
    GatherContiguous(src, start, w, region1);
    TimesIsProduct(region1, w);
  }

  lemma FullLineStart(at: nat, size: nat, origin1: nat, stride: nat)
    ensures Corner(at, size, 0, origin1, stride) == at + size * origin1 * stride
  {
    var line := origin1 * stride;
    assert line + 0 == line;
    assert size * line == size * origin1 * stride;
  }

  /** A strided copy with stride at least 1 can be undone. */
  lemma StridedRoundTrip(dst: seq<byte>, start: nat, size: nat, num: nat, stride: nat, src: seq<byte>)
    requires stride >= 1 && Fits(|dst|, start, size, stride * size, num) && |src| == Times(num, size)
    ensures Gather(Scatter(dst, start, size, stride * size, num, src), start, size, stride * size, num) == src
  {
    if size > 0 {
      RegionWithinStride(size, 1, stride);
      assert size * stride == stride * size;
    }
    GatherScatter(dst, start, size, stride * size, num, src);
  }

  /** With stride 1 both strided copies are linear copies. */
  lemma UnitStrideIsLinear(buffer: seq<byte>, start: nat, size: nat, num: nat, src: seq<byte>)
    requires start <= |buffer| && Fits(|buffer|, start, size, 1 * size, num) && |src| == Times(num, size)
    ensures start + num * size <= |buffer| && |src| == num * size
    ensures Gather(buffer, start, size, 1 * size, num) == buffer[start..start + num * size]
    ensures Scatter(buffer, start, size, 1 * size, num, src) == Overlay(buffer, start, src)
  {
    TimesIsProduct(num, size);
    GatherContiguous(buffer, start, size, num);
    ScatterContiguous(buffer, start, size, num, src);
  }
}
