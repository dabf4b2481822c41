/** Numbers and byte blocks of the proxy protocol.  Numbers are little-endian two's
    complement, 4 bytes for a Java int and 8 for a long. */
module ProxyProtocol {
  type byte = x: int | 0 <= x < 0x100

  function Pow256(n: nat): (p: int)
    ensures p >= 1
  {
    if n == 0 then 1 else 0x100 * Pow256(n - 1)
  }

  /** v is a signed number of n bytes. */
  predicate InRange(v: int, n: nat) {
    -Pow256(n) <= 2 * v < Pow256(n)
  }

  /** The n low bytes of v, lowest first; `/` is the arithmetic shift by 8. */
  function Bytes(v: int, n: nat): (s: seq<byte>)
    ensures |s| == n
    decreases n
  {
    if n == 0 then [] else [v % 0x100] + Bytes(v / 0x100, n - 1)
  }

  function Unsigned(s: seq<byte>): (u: nat)
    ensures u < Pow256(|s|)
  {
    if s == [] then 0 else s[0] + 0x100 * Unsigned(s[1..])
  }

  /** The low n bytes of u read as a signed number. */
  function Signed(u: nat, n: nat): int {
    if 2 * u < Pow256(n) then u else u - Pow256(n)
  }

  function Decode(s: seq<byte>): int {
    Signed(Unsigned(s), |s|)
  }

  lemma {:induction false} UnsignedOfBytes(v: int, n: nat)
    requires -Pow256(n) <= v < Pow256(n)
    ensures Unsigned(Bytes(v, n)) == if v >= 0 then v else v + Pow256(n)
    decreases n
  {
    if n > 0 {
      UnsignedOfBytes(v / 0x100, n - 1);
      assert Bytes(v, n)[1..] == Bytes(v / 0x100, n - 1);
    }
  }

  /** Reading back what was written gives the number, for every number that fits. */
  lemma NumberRoundTrip(v: int, n: nat)
    requires InRange(v, n)
    ensures Decode(Bytes(v, n)) == v
  {
    UnsignedOfBytes(v, n);
  }

  /** The lowest byte comes first. */
  lemma {:induction false} ByteAt(v: int, n: nat, i: nat)
    requires i < n
    ensures Bytes(v, n)[i] == v / Pow256(i) % 0x100
    decreases n
  {
    if i > 0 {
      ByteAt(v / 0x100, n - 1, i - 1);
      DivideTwice(v, Pow256(i - 1));
    }
  }

  lemma DivideTwice(v: int, p: int)
    requires p >= 1
    ensures v / 0x100 / p == v / (0x100 * p)
  {
    var q, r := v / 0x100, v % 0x100;
    var a, b := q / p, q % p;
    assert v == (0x100 * p) * a + (0x100 * b + r);
    QuotientIs(v, 0x100 * p, a, 0x100 * b + r);
  }

  lemma QuotientIs(v: int, d: int, a: int, b: int)
    requires d >= 1 && v == d * a + b && 0 <= b < d
    ensures v / d == a
  {
    var e := v / d - a;
    assert d * e == b - v % d;
    assert e >= 1 ==> d * e >= d;
    assert e <= -1 ==> d * e <= -d;
  }

  lemma {:induction false} UnsignedAppend(s: seq<byte>, b: byte)
    ensures Unsigned(s + [b]) == Unsigned(s) + b * Pow256(|s|)
  {
    if s == [] {
      assert [] + [b] == [b] && [b][1..] == [];
    } else {
      assert (s + [b])[1..] == s[1..] + [b];
      UnsignedAppend(s[1..], b);
      ScaleByte(b, |s|);
    }
  }

  lemma ScaleByte(b: int, n: nat)
    requires n > 0
    ensures 0x100 * (b * Pow256(n - 1)) == b * Pow256(n)
  {
  }

  lemma {:induction false} BytesAppend(v: int, n: nat, w: int)
    requires w == Shifted(v, n)
    ensures Bytes(v, n + 1) == Bytes(v, n) + [w % 0x100]
    ensures w / 0x100 == Shifted(v, n + 1)
    decreases n
  {
    if n > 0 {
      BytesAppend(v / 0x100, n - 1, w);
    }
  }

  /** v shifted right n bytes. */
  function Shifted(v: int, n: nat): int
    decreases n
  {
    if n == 0 then v else Shifted(v / 0x100, n - 1)
  }

  // ---------------------------------------------------------------------
  // Streams
  // ---------------------------------------------------------------------

  class OutputStream {
    var data: seq<byte>

    constructor ()
      ensures data == []
    {
      data := [];
    }

    method Write(b: byte)
      modifies this
      ensures data == old(data) + [b]
    {
      data := data + [b];
    }
  }

  class InputStream {
    var rest: seq<byte>   // the bytes not read yet

    constructor (data: seq<byte>)
      ensures rest == data
    {
      rest := data;
    }

    /** The next byte, or -1 at the end of the stream. */
    method Read() returns (r: int)
      modifies this
      ensures old(rest) == [] ==> r == -1 && rest == []
      ensures old(rest) != [] ==> r == old(rest)[0] && rest == old(rest)[1..]
    {
      if rest == [] {
        r := -1;
      } else {
        r, rest := rest[0], rest[1..];
      }
    }
  }

  /** What reading from a stream gives: a value and the unread bytes, the end of
      the stream before the first byte, or its end after it. */
  datatype Take<T> = Took(value: T, rest: seq<byte>) | Ended | Cut

  function TakeNumber(s: seq<byte>, n: nat): Take<int> {
    if |s| >= n then Took(Decode(s[..n]), s[n..]) else if s == [] then Ended else Cut
  }

  function TakeBytes(s: seq<byte>, n: int): Take<seq<byte>> {
    if n <= 0 then Took([], s)
    else if |s| >= n then Took(s[..n], s[n..])
    else if s == [] then Ended
    else Cut
  }

  /** writeInt and writeLong: n is 4 or 8. */
  method WriteNumber(os: OutputStream, value: int, n: nat)
    modifies os
    ensures os.data == old(os.data) + Bytes(value, n)
  {
    var v := value;
    for i := 0 to n
      invariant v == Shifted(value, i)
      invariant os.data == old(os.data) + Bytes(value, i)
    {
      BytesAppend(value, i, v);
      os.Write(v % 0x100);
      v := v / 0x100;
    }
  }

  /** readInt and readLong: n is 4 or 8.  The bits of each shifted byte are new,
      so or-ing them in is adding; the last byte brings the sign. */
  method ReadNumber(input: InputStream, n: nat) returns (t: Take<int>)
    requires n > 0
    modifies input
    ensures t == TakeNumber(old(input.rest), n)
    ensures t.Took? ==> input.rest == t.rest
  {
    ghost var all := input.rest;
    var value: nat := 0;
    var weight := 1;
    for i := 0 to n
      invariant i <= |all| && input.rest == all[i..]
      invariant weight == Pow256(i) && value == Unsigned(all[..i])
    {
      var r := input.Read();
      if r < 0 {
        return if i == 0 then Ended else Cut;
      }
      UnsignedAppend(all[..i], r);
      assert all[..i] + [all[i]] == all[..i + 1];
      value := value + r * weight;
      weight := 0x100 * weight;
    }
    t := Took(if 2 * value < weight then value else value - weight, input.rest);
  }

  /** readString and streamToFile: the next n bytes. */
  method ReadBytes(input: InputStream, n: int) returns (t: Take<seq<byte>>)
    modifies input
    ensures t == TakeBytes(old(input.rest), n)
    ensures t.Took? ==> input.rest == t.rest
  {
    ghost var all := input.rest;
    var bytes := [];
    var i := 0;
    while i < n
      invariant 0 <= i <= |all| && (i <= n || i == 0)
      invariant input.rest == all[i..] && bytes == all[..i]
    {
      var value := input.Read();
      if value < 0 {
        return if i == 0 then Ended else Cut;
      }
      bytes := bytes + [value];
      i := i + 1;
    }
    t := Took(bytes, input.rest);
  }

  /** fileToStream, and the writing of a byte array. */
  method WriteBytes(os: OutputStream, bytes: seq<byte>)
    modifies os
    ensures os.data == old(os.data) + bytes
  {
    for i := 0 to |bytes|
      invariant os.data == old(os.data) + bytes[..i]
    {
      os.Write(bytes[i]);
    }
  }

  lemma TakeWrittenNumber(v: int, n: nat, rest: seq<byte>)
    requires InRange(v, n)
    ensures TakeNumber(Bytes(v, n) + rest, n) == Took(v, rest)
  {
    NumberRoundTrip(v, n);
    var s := Bytes(v, n) + rest;
    assert s[..n] == Bytes(v, n) && s[n..] == rest;
  }

  lemma TakeWrittenBytes(bytes: seq<byte>, rest: seq<byte>)
    ensures TakeBytes(bytes + rest, |bytes|) == Took(bytes, rest)
  {
    var s := bytes + rest;
    assert s[..|bytes|] == bytes && s[|bytes|..] == rest;
  }
}
