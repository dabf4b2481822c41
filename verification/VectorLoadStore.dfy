/** vloadn and vstoren: n consecutive elements at index n*offset of a buffer,
    as a vector. */
module VectorLoadStore {

  /** The buffer after `data` is stored at vector offset `offset`. */
  function Stored<T>(buffer: seq<T>, base: nat, data: seq<T>, offset: nat): (r: seq<T>)
    requires base + |data| * offset + |data| <= |buffer|
    ensures |r| == |buffer|
  {
    var p := base + |data| * offset;
    buffer[..p] + data + buffer[p + |data|..]
  }

  function Loaded<T>(buffer: seq<T>, base: nat, n: nat, offset: nat): (r: seq<T>)
    requires base + n * offset + n <= |buffer|
    ensures |r| == n
  {
    buffer[base + n * offset..base + n * offset + n]
  }

  method VLoad<T(0)>(src: array<T>, base: nat, n: nat, offset: nat) returns (dest: array<T>)
    requires base + n * offset + n <= src.Length
    ensures fresh(dest) && dest[..] == Loaded(src[..], base, n, offset)
    ensures dest.Length == n && forall k | 0 <= k < n :: dest[k] == src[base + n * offset + k]
  {
    dest := new T[n];
    var p := base + n * offset;
    for i := 0 to n
      invariant p == base + n * offset + i
      invariant forall k | 0 <= k < i :: dest[k] == src[base + n * offset + k]
    {
      dest[i] := src[p];
      p := p + 1;
    }
  }

  method VStore<T>(data: array<T>, offset: nat, dest: array<T>, base: nat)
    requires data != dest && base + data.Length * offset + data.Length <= dest.Length
    modifies dest
    ensures dest[..] == Stored(old(dest[..]), base, data[..], offset)
    ensures var start := base + data.Length * offset;
            forall x | 0 <= x < dest.Length ::
              dest[x] == if start <= x < start + data.Length then data[x - start] else old(dest[x])
  {
    var n := data.Length;
    var start := base + n * offset;
    var p := start;
    for i := 0 to n
      invariant p == start + i
      invariant forall x | 0 <= x < dest.Length ::
                  dest[x] == if start <= x < start + i then data[x - start] else old(dest[x])
    {
      dest[p] := data[i];
      p := p + 1;
    }
  }

  lemma {:induction false} DifferentOffsetsApart(n: nat, a: nat, b: nat)
    requires a < b
    ensures n * a + n <= n * b
    decreases b
  {
    assert n * (b - 1) == n * b - n;
    if a < b - 1 {
      DifferentOffsetsApart(n, a, b - 1);
    }
  }

  /** A vector is loaded from where it was stored, and stores at other offsets
      do not change it. */
  lemma LoadAfterStore<T>(buffer: seq<T>, base: nat, data: seq<T>, offset: nat, other: nat)
    requires base + |data| * offset + |data| <= |buffer|
    requires base + |data| * other + |data| <= |buffer|
    ensures Loaded(Stored(buffer, base, data, offset), base, |data|, other) ==
            if other == offset then data else Loaded(buffer, base, |data|, other)
  {
    if offset < other {
      DifferentOffsetsApart(|data|, offset, other);
    } else if other < offset {
      DifferentOffsetsApart(|data|, other, offset);
    }
  }

  /** Storing back what was loaded changes nothing. */
  lemma StoreAfterLoad<T>(buffer: seq<T>, base: nat, n: nat, offset: nat)
    requires base + n * offset + n <= |buffer|
    ensures Stored(buffer, base, Loaded(buffer, base, n, offset), offset) == buffer
  {
  }
}
