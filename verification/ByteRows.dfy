/** Rows of bytes, h rows of w bytes, `pitch` bytes from the start of one to the
    start of the next: read out of a buffer, or written into it. */
module ByteRows {
  type byte = x: int | 0 <= x < 0x100

  /** n times w, by repeated addition. */
  function Times(n: nat, w: nat): nat {
    if n == 0 then 0 else Times(n - 1, w) + w
  }

  lemma {:induction false} TimesIsProduct(n: nat, w: nat)
    ensures Times(n, w) == n * w
  {
    if n > 0 {
      TimesIsProduct(n - 1, w);
    }
  }

  lemma {:induction false} RowInside(w: nat, h: nat, j: nat)
    requires j < h
    ensures Times(j, w) + w <= Times(h, w)
  {
    if j < h - 1 {
      RowInside(w, h - 1, j);
    }
  }

  /** Where row j starts. */
  function Row(start: nat, pitch: nat, j: nat): nat {
    start + Times(j, pitch)
  }

  /** All rows, hence the last one, lie inside a buffer of n bytes. */
  predicate Fits(n: nat, start: nat, w: nat, pitch: nat, h: nat) {
    h == 0 || Row(start, pitch, h - 1) + w <= n
  }

  lemma {:induction false} FitsEach(n: nat, start: nat, w: nat, pitch: nat, h: nat, j: nat)
    requires Fits(n, start, w, pitch, h) && j < h
    ensures Row(start, pitch, j) + w <= n
  {
    if j < h - 1 {
      RowInside(pitch, h - 1, j);
    }
  }

  /** The buffer with `bytes` written at `at`. */
  function Overlay(buffer: seq<byte>, at: nat, bytes: seq<byte>): (r: seq<byte>)
    requires at + |bytes| <= |buffer|
    ensures |r| == |buffer|
    ensures forall x | 0 <= x < |buffer| :: r[x] == if at <= x < at + |bytes| then bytes[x - at] else buffer[x]
  {
    buffer[..at] + bytes + buffer[at + |bytes|..]
  }

  function Gather(src: seq<byte>, start: nat, w: nat, pitch: nat, h: nat): (r: seq<byte>)
    requires Fits(|src|, start, w, pitch, h)
    ensures |r| == Times(h, w)
  {
    if h == 0 then []
    else
      var row := Row(start, pitch, h - 1);
      Gather(src, start, w, pitch, h - 1) + src[row..row + w]
  }

  function Scatter(dst: seq<byte>, start: nat, w: nat, pitch: nat, h: nat, src: seq<byte>): (r: seq<byte>)
    requires Fits(|dst|, start, w, pitch, h) && |src| == Times(h, w)
    ensures |r| == |dst|
  {
    if h == 0 then dst
    else
      var taken := Times(h - 1, w);
      Overlay(Scatter(dst, start, w, pitch, h - 1, src[..taken]), Row(start, pitch, h - 1), src[taken..])
  }

  lemma {:induction false} GatherAt(src: seq<byte>, start: nat, w: nat, pitch: nat, h: nat, j: nat, i: nat)
    requires Fits(|src|, start, w, pitch, h) && j < h && i < w
    ensures Times(j, w) + i < Times(h, w) && Row(start, pitch, j) + i < |src|
    ensures Gather(src, start, w, pitch, h)[Times(j, w) + i] == src[Row(start, pitch, j) + i]
  {
    InRange(|src|, start, w, pitch, h, j, i);
    if j < h - 1 {
      GatherAt(src, start, w, pitch, h - 1, j, i);
    }
  }

  /** Bytes that are in no row stay as they were. */
  lemma {:induction false} ScatterOutside(dst: seq<byte>, start: nat, w: nat, pitch: nat, h: nat, src: seq<byte>, x: nat)
    requires Fits(|dst|, start, w, pitch, h) && |src| == Times(h, w) && x < |dst|
    requires forall j | 0 <= j < h :: !(Row(start, pitch, j) <= x < Row(start, pitch, j) + w)
    ensures Scatter(dst, start, w, pitch, h, src)[x] == dst[x]
  {
    if h > 0 {
      ScatterOutside(dst, start, w, pitch, h - 1, src[..Times(h - 1, w)], x);
    }
  }

  /** One more row: what it writes, and that it keeps what is before it. */
  lemma ScatterStep(dst: seq<byte>, start: nat, w: nat, pitch: nat, h: nat, src: seq<byte>, x: nat)
    requires h > 0 && Fits(|dst|, start, w, pitch, h) && |src| == Times(h, w) && x < |dst|
    ensures var at, taken := Row(start, pitch, h - 1), Times(h - 1, w);
            Scatter(dst, start, w, pitch, h, src)[x] ==
            if at <= x < at + w then src[taken + (x - at)]
            else Scatter(dst, start, w, pitch, h - 1, src[..taken])[x]
  {
  }

  /** Rows that do not overlap receive the bytes written to them. */
  lemma {:induction false} ScatterAt(dst: seq<byte>, start: nat, w: nat, pitch: nat, h: nat, src: seq<byte>, j: nat, i: nat)
    requires Fits(|dst|, start, w, pitch, h) && |src| == Times(h, w) && j < h && i < w
    requires w <= pitch || h == 1
    ensures Times(j, w) + i < Times(h, w) && Row(start, pitch, j) + i < |dst|
    ensures Scatter(dst, start, w, pitch, h, src)[Row(start, pitch, j) + i] == src[Times(j, w) + i]
  {
    InRange(|dst|, start, w, pitch, h, j, i);
    ScatterStep(dst, start, w, pitch, h, src, Row(start, pitch, j) + i);
    if j < h - 1 {
      InEarlierRow(start, w, pitch, h, j, i);
      ScatterAt(dst, start, w, pitch, h - 1, src[..Times(h - 1, w)], j, i);
    }
  }

  lemma InRange(n: nat, start: nat, w: nat, pitch: nat, h: nat, j: nat, i: nat)
    requires Fits(n, start, w, pitch, h) && j < h && i < w
    ensures Times(j, w) + i < Times(h, w) && Row(start, pitch, j) + i < n
  {
    RowInside(w, h, j);
    FitsEach(n, start, w, pitch, h, j);
  }

  lemma InEarlierRow(start: nat, w: nat, pitch: nat, h: nat, j: nat, i: nat)
    requires w <= pitch && j < h - 1 && i < w
    ensures Row(start, pitch, j) + i < Row(start, pitch, h - 1) && Times(j, w) + i < Times(h - 1, w)
  {
    RowInside(pitch, h - 1, j);
    RowInside(w, h - 1, j);
  }

  /** The row and column of index k among rows of w bytes. */
  lemma {:induction false} Split(k: nat, w: nat, h: nat) returns (j: nat, i: nat)
    requires k < Times(h, w)
    ensures k == Times(j, w) + i && j < h && i < w
  {
    if k >= Times(h - 1, w) {
      j, i := h - 1, k - Times(h - 1, w);
    } else {
      j, i := Split(k, w, h - 1);
    }
  }

  lemma GatherScatter(dst: seq<byte>, start: nat, w: nat, pitch: nat, h: nat, src: seq<byte>)
    requires Fits(|dst|, start, w, pitch, h) && |src| == Times(h, w)
    requires w <= pitch || h <= 1
    ensures Gather(Scatter(dst, start, w, pitch, h, src), start, w, pitch, h) == src
  {
    var written := Scatter(dst, start, w, pitch, h, src);
    var back := Gather(written, start, w, pitch, h);
    forall k | 0 <= k < |src| ensures back[k] == src[k] {
      var j, i := Split(k, w, h);
      GatherAt(written, start, w, pitch, h, j, i);
      ScatterAt(dst, start, w, pitch, h, src, j, i);
    }
  }

  /** Two overlapping rows cannot both be read back. */
  lemma OverlapShares(buffer: seq<byte>, start: nat, w: nat, pitch: nat, h: nat)
    requires Fits(|buffer|, start, w, pitch, h) && pitch < w && h >= 2
    ensures pitch < w < Times(h, w)
    ensures Gather(buffer, start, w, pitch, h)[pitch] == Gather(buffer, start, w, pitch, h)[w]
  {
    var read := Gather(buffer, start, w, pitch, h);
    assert read[pitch] == buffer[start + pitch] by {
      GatherAt(buffer, start, w, pitch, h, 0, pitch);
    }
    assert w < |read| && read[w] == buffer[start + pitch] by {
      GatherAt(buffer, start, w, pitch, h, 1, 0);
      OneTime(w);
      OneTime(pitch);
    }
  }

  lemma OneTime(w: nat)
    ensures Times(1, w) == w
  {
  }

  lemma OverlapLoses(dst: seq<byte>, start: nat, w: nat, pitch: nat, h: nat) returns (bad: seq<byte>)
    requires Fits(|dst|, start, w, pitch, h) && pitch < w && h >= 2
    ensures |bad| == Times(h, w) && Gather(Scatter(dst, start, w, pitch, h, bad), start, w, pitch, h) != bad
  {
    bad := seq(Times(h, w), k => if k == w then 1 else 0);
    OverlapShares(Scatter(dst, start, w, pitch, h, bad), start, w, pitch, h);
    assert bad[pitch] != bad[w];
  }

  /** Scattering can be undone by gathering exactly when rows do not overlap. */
  lemma RoundTripIff(dst: seq<byte>, start: nat, w: nat, pitch: nat, h: nat)
    requires Fits(|dst|, start, w, pitch, h)
    ensures (forall src: seq<byte> | |src| == Times(h, w) ::
               Gather(Scatter(dst, start, w, pitch, h, src), start, w, pitch, h) == src)
            <==> (w <= pitch || h <= 1)
  {
    if w <= pitch || h <= 1 {
      forall src: seq<byte> | |src| == Times(h, w)
        ensures Gather(Scatter(dst, start, w, pitch, h, src), start, w, pitch, h) == src
      {
        GatherScatter(dst, start, w, pitch, h, src);
      }
    } else {
      var bad := OverlapLoses(dst, start, w, pitch, h);
    }
  }

  /** Rows that touch are one run of bytes. */
  lemma {:induction false} GatherContiguous(src: seq<byte>, start: nat, w: nat, h: nat)
    requires Fits(|src|, start, w, w, h) && start <= |src|
    ensures start + Times(h, w) <= |src| && Gather(src, start, w, w, h) == src[start..start + Times(h, w)]
  {
    if h > 0 {
      var row := Row(start, w, h - 1);
      GatherContiguous(src, start, w, h - 1);
      SliceTwice(src, start, row, row + w);
      assert Gather(src, start, w, w, h) == src[start..row] + src[row..row + w];
    } else {
      assert src[start..start] == [];
    }
  }

  lemma SliceTwice(s: seq<byte>, a: nat, b: nat, c: nat)
    requires a <= b <= c <= |s|
    ensures s[a..b] + s[b..c] == s[a..c]
  {
  }

  lemma {:induction false} ScatterContiguous(dst: seq<byte>, start: nat, w: nat, h: nat, src: seq<byte>)
    requires Fits(|dst|, start, w, w, h) && start <= |dst| && |src| == Times(h, w)
    ensures start + Times(h, w) <= |dst| && Scatter(dst, start, w, w, h, src) == Overlay(dst, start, src)
  {
    if h > 0 {
      var taken := Times(h - 1, w);
      assert Row(start, w, h - 1) == start + taken;
      ScatterContiguous(dst, start, w, h - 1, src[..taken]);
      OverlayTwice(dst, start, src[..taken], src[taken..]);
      assert src[..taken] + src[taken..] == src;
    } else {
      assert Overlay(dst, start, src) == dst;
    }
  }

  lemma OverlayTwice(buffer: seq<byte>, at: nat, a: seq<byte>, b: seq<byte>)
    requires at + |a| + |b| <= |buffer|
    ensures Overlay(Overlay(buffer, at, a), at + |a|, b) == Overlay(buffer, at, a + b)
  {
  }
}
