/** Byte sequences, byte order and fixed-width unsigned integers, as Go's
    encoding/binary lays them out.  A byte is an integer, so that the masks of
    the wire format become division and remainder. */
module Wire {

  type byte = b: int | 0 <= b < 0x100
  type u16 = v: int | 0 <= v < 0x1_0000
  type u32 = v: int | 0 <= v < 0x1_0000_0000
  type u64 = v: int | 0 <= v < 0x1_0000_0000_0000_0000

  type Bytes = seq<byte>

  datatype ByteOrder = Little | Big

  datatype Option<+T> = None | Some(value: T)

  datatype Result<+T, +E> = Ok(value: T) | Err(error: E)

  /** The bytes `part` stand in `data` from position `pos` on. */
  ghost predicate At(data: Bytes, pos: nat, part: Bytes) {
    pos + |part| <= |data| && data[pos..pos + |part|] == part
  }

  lemma AtConcat(data: Bytes, pos: nat, a: Bytes, b: Bytes)
    requires At(data, pos, a + b)
    ensures At(data, pos, a) && At(data, pos + |a|, b)
  {
    var whole := data[pos..pos + |a + b|];
    assert whole[..|a|] == a && whole[|a|..] == b;
    assert data[pos..pos + |a|] == whole[..|a|];
    assert data[pos + |a|..pos + |a| + |b|] == whole[|a|..];
  }

  lemma AtJoin(data: Bytes, pos: nat, a: Bytes, b: Bytes)
    requires At(data, pos, a) && At(data, pos + |a|, b)
    ensures At(data, pos, a + b)
  {
    assert data[pos..pos + |a| + |b|] == data[pos..pos + |a|] + data[pos + |a|..pos + |a| + |b|];
  }

  lemma AtIndex(data: Bytes, pos: nat, part: Bytes, i: nat)
    requires At(data, pos, part) && i < |part|
    ensures pos + i < |data| && data[pos + i] == part[i]
  {
    assert data[pos + i] == data[pos..pos + |part|][i];
  }

  // ---------------------------------------------------------------- integers

  function Pow256(n: nat): (r: nat)
    ensures r > 0
  {
    if n == 0 then 1 else 256 * Pow256(n - 1)
  }

  /** `n` bytes of `v`, least significant first. */
  function Digits(n: nat, v: nat): (r: Bytes)
    ensures |r| == n
  {
    if n == 0 then [] else [v % 256] + Digits(n - 1, v / 256)
  }

  function Undigits(s: Bytes): nat {
    if s == [] then 0 else s[0] + 256 * Undigits(s[1..])
  }

  function Reverse(s: Bytes): (r: Bytes)
    ensures |r| == |s|
    ensures forall i :: 0 <= i < |s| ==> r[i] == s[|s| - 1 - i]
  {
    if s == [] then [] else Reverse(s[1..]) + [s[0]]
  }

  function Put(order: ByteOrder, n: nat, v: nat): (r: Bytes)
    ensures |r| == n
  {
    if order.Little? then Digits(n, v) else Reverse(Digits(n, v))
  }

  function Get(order: ByteOrder, s: Bytes): nat {
    if order.Little? then Undigits(s) else Undigits(Reverse(s))
  }

  lemma {:induction false} UndigitsDigits(n: nat, v: nat)
    requires v < Pow256(n)
    ensures Undigits(Digits(n, v)) == v
  {
    if n > 0 {
      UndigitsDigits(n - 1, v / 256);
      assert Digits(n, v)[1..] == Digits(n - 1, v / 256);
    }
  }

  lemma {:induction false} UndigitsBound(s: Bytes)
    ensures Undigits(s) < Pow256(|s|)
  {
    if s != [] {
      UndigitsBound(s[1..]);
    }
  }

  lemma {:induction false} DigitsUndigits(s: Bytes)
    ensures Digits(|s|, Undigits(s)) == s
  {
    if s != [] {
      DigitsUndigits(s[1..]);
    }
  }

  /** Reading what was written gives the number back, in either byte order. */
  lemma GetPut(order: ByteOrder, n: nat, v: nat)
    requires v < Pow256(n)
    ensures Get(order, Put(order, n, v)) == v
  {
    UndigitsDigits(n, v);
    var d := Digits(n, v);
    assert Reverse(Reverse(d)) == d;
  }

  /** Writing what was read gives the bytes back, in either byte order. */
  lemma PutGet(order: ByteOrder, s: Bytes)
    ensures Get(order, s) < Pow256(|s|)
    ensures Put(order, |s|, Get(order, s)) == s
  {
    UndigitsBound(s);
    UndigitsBound(Reverse(s));
    DigitsUndigits(s);
    DigitsUndigits(Reverse(s));
    assert Reverse(Reverse(s)) == s;
  }

  lemma PowersOf256()
    ensures Pow256(1) == 0x100 && Pow256(2) == 0x1_0000
    ensures Pow256(4) == 0x1_0000_0000
    ensures Pow256(8) == 0x1_0000_0000_0000_0000
  {
    assert Pow256(1) == 256 * Pow256(0);
    assert Pow256(2) == 256 * Pow256(1);
    assert Pow256(3) == 256 * Pow256(2);
    assert Pow256(4) == 256 * Pow256(3);
    assert Pow256(5) == 256 * Pow256(4);
    assert Pow256(6) == 256 * Pow256(5);
    assert Pow256(7) == 256 * Pow256(6);
  }

  /** Little endian starts with the least significant byte, big endian ends with it. */
  lemma {:induction false} GetGrows(s: Bytes, b: byte)
    ensures Get(Little, [b] + s) == b + 256 * Get(Little, s)
    ensures Get(Big, s + [b]) == 256 * Get(Big, s) + b
    ensures Get(Little, []) == 0 && Get(Big, []) == 0
  {
    assert ([b] + s)[1..] == s;
    assert Reverse(s + [b]) == [b] + Reverse(s);
    assert ([b] + Reverse(s))[1..] == Reverse(s);
  }

  // The two-byte case, which every count and tag of the format uses.

  function Put16(order: ByteOrder, v: u16): (r: Bytes)
    ensures |r| == 2
  {
    if order.Little? then [v % 256, v / 256] else [v / 256, v % 256]
  }

  function Get16(order: ByteOrder, s: Bytes, pos: nat): u16
    requires pos + 2 <= |s|
  {
    var a: int := s[pos];
    var b: int := s[pos + 1];
    if order.Little? then a + 256 * b else b + 256 * a
  }

  lemma Put16Get16(order: ByteOrder, data: Bytes, pos: nat)
    requires pos + 2 <= |data|
    ensures Put16(order, Get16(order, data, pos)) == data[pos..pos + 2]
  {
    var a: int, b: int := data[pos], data[pos + 1];
    assert (a + 256 * b) % 256 == a && (a + 256 * b) / 256 == b;
    assert (b + 256 * a) % 256 == b && (b + 256 * a) / 256 == a;
    assert data[pos..pos + 2] == [data[pos], data[pos + 1]];
  }

  /** Two bytes at a position are the number they are on their own. */
  lemma Get16IsGet(order: ByteOrder, data: Bytes, pos: nat)
    requires pos + 2 <= |data|
    ensures Get16(order, data, pos) == Get(order, data[pos..pos + 2])
  {
    var s := data[pos..pos + 2];
    assert s == [] + [s[0]] + [s[1]] == [s[0]] + ([s[1]] + []);
    GetGrows([], s[0]);
    GetGrows([], s[1]);
    GetGrows([] + [s[0]], s[1]);
    GetGrows([s[1]] + [], s[0]);
  }

  lemma Get16At(order: ByteOrder, data: Bytes, pos: nat, v: u16)
    requires At(data, pos, Put16(order, v))
    ensures pos + 2 <= |data| && Get16(order, data, pos) == v
  {
    AtIndex(data, pos, Put16(order, v), 0);
    AtIndex(data, pos, Put16(order, v), 1);
  }
}
