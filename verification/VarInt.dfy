/** QUIC variable-length integers and the HTTP/3 datagram wrapper (proxy/masque.go), after section 16
    of RFC 9000. */
module VarInt {
  import opened Wrappers

  type Byte = b: int | 0 <= b < 256

  const MAX_VALUE := 0x4000_0000_0000_0000  // 2^62: the first value without an encoding

  type Uint64 = v: int | 0 <= v < 0x1_0000_0000_0000_0000

  // ----- Big-endian bytes

  function ToBytes(v: nat, n: nat): (bs: seq<Byte>)
    ensures |bs| == n
  {
    if n == 0 then [] else ToBytes(v / 256, n - 1) + [v % 256]
  }

  function FromBytes(bs: seq<Byte>): nat
  {
    if bs == [] then 0 else FromBytes(bs[..|bs| - 1]) * 256 + bs[|bs| - 1]
  }

  function Pow256(n: nat): (p: nat)
    ensures p > 0
  {
    if n == 0 then 1 else 256 * Pow256(n - 1)
  }

  lemma Powers()
    ensures Pow256(0) == 1 && Pow256(1) == 256 && Pow256(3) == 0x100_0000 && Pow256(7) == 0x100_0000_0000_0000
  {
    assert Pow256(2) == 256 * Pow256(1);
    assert Pow256(3) == 256 * Pow256(2);
    assert Pow256(4) == 256 * Pow256(3);
    assert Pow256(5) == 256 * Pow256(4);
    assert Pow256(6) == 256 * Pow256(5);
    assert Pow256(7) == 256 * Pow256(6);
  }

  lemma {:induction false} BytesRoundTrip(v: nat, n: nat)
    requires v < Pow256(n)
    ensures FromBytes(ToBytes(v, n)) == v
  {
    if n > 0 {
      BytesRoundTrip(v / 256, n - 1);
      var bs := ToBytes(v, n);
      assert bs[..|bs| - 1] == ToBytes(v / 256, n - 1);
    }
  }

  lemma {:induction false} FromBytesBound(bs: seq<Byte>)
    ensures FromBytes(bs) < Pow256(|bs|)
  {
    if bs != [] {
      FromBytesBound(bs[..|bs| - 1]);
    }
  }

  lemma ShiftDigit(first: nat, power: nat, tail: nat, last: nat)
    ensures (first * power + tail) * 256 + last == first * (256 * power) + (tail * 256 + last)
  {
  }

  /** The first byte carries the most significant digit. */
  lemma {:induction false} FromBytesFirst(bs: seq<Byte>)
    requires bs != []
    ensures FromBytes(bs) == bs[0] * Pow256(|bs| - 1) + FromBytes(bs[1..])
  {
    if |bs| > 1 {
      var front, last, tail := bs[..|bs| - 1], bs[|bs| - 1], bs[1..];
      FromBytesFirst(front);
      assert tail[..|tail| - 1] == front[1..] && tail[|tail| - 1] == last;
      assert FromBytes(tail) == FromBytes(front[1..]) * 256 + last;
      ShiftDigit(bs[0], Pow256(|bs| - 2), FromBytes(front[1..]), last);
    }
  }

  // ----- The codec

  /** The length in bytes for a two-bit prefix. */
  function LengthOf(prefix: int): (n: nat)
    requires 0 <= prefix < 4
    ensures 1 <= n <= 8
  {
    if prefix == 0 then 1 else if prefix == 1 then 2 else if prefix == 2 then 4 else 8
  }

  function PrefixFor(v: Uint64): (p: int)
    ensures 0 <= p < 4
  {
    if v <= 63 then 0 else if v <= 16383 then 1 else if v <= 1073741823 then 2 else 3
  }

  /** The two top bits of the first byte are overwritten by the prefix: for the shorter forms they are
      zero, and for eight bytes the code sets both. */
  function Encode(v: Uint64): (bs: seq<Byte>)
    ensures |bs| == LengthOf(PrefixFor(v))
  {
    var p := PrefixFor(v);
    var bs := ToBytes(v, LengthOf(p));
    [bs[0] % 64 + 64 * p] + bs[1..]
  }

  /** The value and the number of bytes read; (0, 0) when data is too short. */
  function Decode(data: seq<Byte>): (r: (nat, nat))
    ensures r.1 <= |data|
  {
    if data == [] then (0, 0)
    else
      var n := LengthOf(data[0] / 64);
      if |data| < n then (0, 0) else (FromBytes([data[0] % 64] + data[1..n]), n)
  }

  /** The i low places still hold rest; the places behind them are written. */
  ghost predicate WrittenFrom(v: nat, n: nat, rest: nat, i: nat, tail: seq<Byte>)
  {
    ToBytes(v, n) == ToBytes(rest, i) + tail
  }

  lemma WriteOneMore(v: nat, n: nat, rest: nat, i: nat, tail: seq<Byte>)
    requires WrittenFrom(v, n, rest, i + 1, tail)
    ensures WrittenFrom(v, n, rest / 256, i, [rest % 256] + tail)
  {
    assert ToBytes(rest / 256, i) + [rest % 256] + tail == ToBytes(rest / 256, i) + ([rest % 256] + tail);
  }

  method BigEndian(v: nat, n: nat) returns (buf: array<Byte>)
    ensures fresh(buf) && buf[..] == ToBytes(v, n)
  {
    buf := new Byte[n](_ => 0);
    var rest := v;
    for i := n downto 0
      invariant rest >= 0 && WrittenFrom(v, n, rest, i, buf[i..])
    {
      WriteOneMore(v, n, rest, i, buf[i + 1..]);
      ghost var tail := buf[i + 1..];
      buf[i] := rest % 256;
      assert buf[i + 1..] == tail && buf[i..] == [rest % 256] + tail;
      rest := rest / 256;
    }
    assert buf[0..] == buf[..];
  }

  method WriteVarInt(v: Uint64) returns (buf: array<Byte>)
    ensures buf[..] == Encode(v)
  {
    var p := PrefixFor(v);
    buf := BigEndian(v, LengthOf(p));
    ghost var bs := buf[..];
    buf[0] := buf[0] % 64 + 64 * p;
    assert buf[1..] == bs[1..] && buf[..] == [buf[0]] + buf[1..];
  }

  // ----- The laws

  /** Clearing the two top bits of the first byte takes the value modulo 2^62. */
  lemma MaskedValue(v: Uint64, first: Byte, tail: nat, n: nat)
    requires n == LengthOf(PrefixFor(v)) && tail < Pow256(n - 1) && v == first * Pow256(n - 1) + tail
    ensures (first % 64) * Pow256(n - 1) + tail == v % MAX_VALUE
  {
    Powers();
    if n == 8 {
      var q := first / 64;
      assert first == 64 * q + first % 64;
      assert v == q * MAX_VALUE + ((first % 64) * 0x100_0000_0000_0000 + tail);
    }
  }

  lemma BytesWide(v: Uint64, n: nat)
    requires n == LengthOf(PrefixFor(v))
    ensures FromBytes(ToBytes(v, n)) == v
  {
    Powers();
    assert Pow256(2) == 65536 && Pow256(4) == 256 * Pow256(3) && Pow256(8) == 256 * Pow256(7);
    BytesRoundTrip(v, n);
  }

  lemma EncodeDecodes(v: Uint64, rest: seq<Byte>)
    ensures Decode(Encode(v) + rest) == (v % MAX_VALUE, |Encode(v)|)
  {
    var p, n := PrefixFor(v), LengthOf(PrefixFor(v));
    var bs, data := ToBytes(v, n), Encode(v) + rest;
    assert data[0] % 64 == bs[0] % 64 && data[0] / 64 == p;
    assert data[1..n] == bs[1..];
    var masked := [bs[0] % 64] + bs[1..];
    assert Decode(data) == (FromBytes(masked), n);
    FromBytesFirst(masked);
    FromBytesFirst(bs);
    assert masked[1..] == bs[1..];
    BytesWide(v, n);
    FromBytesBound(bs[1..]);
    MaskedValue(v, bs[0], FromBytes(bs[1..]), n);
  }

  /** Reading what was written returns the value and its length, whatever follows, exactly for the
      values that RFC 9000 can represent; a larger one loses its two top bits. */
  lemma RoundTripIffRepresentable(v: Uint64, rest: seq<Byte>)
    ensures Decode(Encode(v) + rest) == (v, |Encode(v)|) <==> v < MAX_VALUE
  {
    EncodeDecodes(v, rest);
  }

  /** No byte string that decodes to v is shorter than the encoding written for it. */
  lemma EncodingIsShortest(v: Uint64, data: seq<Byte>)
    requires Decode(data).1 > 0 && Decode(data).0 == v
    ensures |Encode(v)| <= Decode(data).1
  {
    var n := Decode(data).1;
    var digits := [data[0] % 64] + data[1..n];
    FromBytesFirst(digits);
    FromBytesBound(digits[1..]);
    Powers();
  }

  // ----- Datagrams

  function Wrap(data: seq<Byte>): seq<Byte>
  {
    [0] + data
  }

  function Unwrap(data: seq<Byte>): Option<seq<Byte>>
  {
    var (contextId, n) := Decode(data);
    if n == 0 || n >= |data| || contextId != 0 then None else Some(data[n..])
  }

  /** Unwrapping undoes wrapping exactly for non-empty datagrams; an empty one is dropped. */
  lemma UnwrapWrap(data: seq<Byte>)
    ensures Unwrap(Wrap(data)) == if data == [] then None else Some(data)
  {
    var w := Wrap(data);
    assert [w[0] % 64] + w[1..1] == [0];
    assert FromBytes([0]) == FromBytes([0][..0]) * 256 + 0;
  }

  /** A datagram is delivered exactly when it has a payload and the context identifier zero, in whichever form
      the identifier is written. */
  lemma UnwrapIff(contextId: Uint64, data: seq<Byte>)
    requires contextId < MAX_VALUE
    ensures Unwrap(Encode(contextId) + data) == if contextId == 0 && data != [] then Some(data) else None
  {
    EncodeDecodes(contextId, data);
    assert (Encode(contextId) + data)[|Encode(contextId)|..] == data;
  }

  lemma TwoBytes(v: nat)
    ensures ToBytes(v, 1) == [v % 256] && ToBytes(v, 2) == [v / 256 % 256, v % 256]
  {
    assert ToBytes(v, 1) == ToBytes(v / 256, 0) + [v % 256];
    assert ToBytes(v / 256, 1) == ToBytes(v / 256 / 256, 0) + [v / 256 % 256];
    assert ToBytes(v, 2) == ToBytes(v / 256, 1) + [v % 256];
  }

  lemma FourBytes(v: nat)
    ensures ToBytes(v, 4) == [v / 0x100_0000 % 256, v / 0x1_0000 % 256, v / 256 % 256, v % 256]
  {
    TwoBytes(v / 0x1_0000);
    assert v / 256 / 256 == v / 0x1_0000 && v / 256 / 256 / 256 == v / 0x100_0000;
    assert v / 0x1_0000 / 256 == v / 0x100_0000;
    assert ToBytes(v, 4) == ToBytes(v / 256, 3) + [v % 256];
    assert ToBytes(v / 256, 3) == ToBytes(v / 256 / 256, 2) + [v / 256 % 256];
  }

  /** The form is the standard's: the two top bits give the length as a power of two, and the samples of section
      A.1 of RFC 9000 come out as printed there. */
  lemma StandardForm(v: Uint64)
    requires v < MAX_VALUE
    ensures |Encode(v)| == (match Encode(v)[0] / 64 case 0 => 1 case 1 => 2 case 2 => 4 case _ => 8)
    ensures Encode(37) == [0x25] && Encode(15293) == [0x7b, 0xbd] && Encode(494878333) == [0x9d, 0x7f, 0x3e, 0x7d]
  {
    TwoBytes(37);
    TwoBytes(15293);
    FourBytes(494878333);
  }

  /** Nothing is read, and nothing consumed, exactly when the data is shorter than its first byte announces. */
  lemma DecodeFailsIffShort(data: seq<Byte>)
    ensures var short := data == [] || |data| < (match data[0] / 64 case 0 => 1 case 1 => 2 case 2 => 4 case _ => 8);
            if short then Decode(data) == (0, 0) else Decode(data).1 > 0
  {
  }
}
