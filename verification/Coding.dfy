/** Fixed-width and varint encodings (util/coding.cc, and the varints of pb_encode.c and pb_decode.c). */
module Coding {
  import opened Bytes
  import opened InternalKeys

  const TWO_32: nat := 0x1_0000_0000
  const TWO_64: nat := 0x1_0000_0000_0000_0000

  // ------------------------------------------------------------------ shifts

  function Pow2(n: nat): (r: nat)
    ensures r > 0
  {
    if n == 0 then 1 else 2 * Pow2(n - 1)
  }

  function ShiftRight(x: nat, n: nat): nat { if n == 0 then x else ShiftRight(x / 2, n - 1) }

  // ------------------------------------------------------------------ varints: what the bytes mean

  /** Base 128, least significant group first; all bytes but the last have the top bit set. */
  function VarintBytes(v: nat): (r: Slice)
    ensures r != []
  {
    if v < 128 then [v as byte] else [(v % 128 + 128) as byte] + VarintBytes(v / 128)
  }

  lemma VarintStep(v: nat)
    ensures v < 128 ==> VarintBytes(v) == [v as byte] && v % 128 == v
    ensures v >= 128 ==> VarintBytes(v) == [(v % 128 + 128) as byte] + VarintBytes(v / 128)
  {
  }

  /** The number that the groups of `s` spell. */
  function Groups(s: Slice): nat
  {
    if s == [] then 0 else s[0] as nat % 128 + 128 * Groups(s[1..])
  }

  /** Position of the first byte without the top bit. */
  function End(s: Slice): (e: nat)
    ensures e <= |s|
    ensures forall i :: 0 <= i < e ==> s[i] >= 128
    ensures e < |s| ==> s[e] < 128
  {
    if s == [] || s[0] < 128 then 0 else 1 + End(s[1..])
  }

  /** Reading a varint of at most `most` bytes into `modulus` values: the value and the rest of the input. */
  function Varint(s: Slice, most: nat, modulus: nat): Option<(nat, Slice)>
    requires modulus > 0
  {
    var e := End(s);
    if e < |s| && e < most then Some((Groups(s[..e + 1]) % modulus, s[e + 1..])) else None
  }

  function Pow128(n: nat): (r: nat)
    ensures r > 0
  {
    if n == 0 then 1 else 128 * Pow128(n - 1)
  }

  lemma {:induction false} GroupsAppend(s: Slice, b: byte)
    ensures Groups(s + [b]) == Groups(s) + (b as nat % 128) * Pow128(|s|)
  {
    var t := s + [b];
    if s == [] {
      assert t[1..] == [];
    } else {
      assert t[1..] == s[1..] + [b];
      GroupsAppend(s[1..], b);
      var c, p := b as nat % 128, Pow128(|s| - 1);
      assert 128 * (c * p) == c * (128 * p);
    }
  }

  lemma {:induction false} EndAppend(s: Slice, suffix: Slice)
    ensures End(s) < |s| ==> End(s + suffix) == End(s)
    ensures End(s) == |s| ==> End(s + suffix) == |s| + End(suffix)
  {
    if s == [] {
      assert s + suffix == suffix;
    } else {
      assert (s + suffix)[1..] == s[1..] + suffix;
      EndAppend(s[1..], suffix);
    }
  }

  lemma EndIs(s: Slice, e: nat)
    requires e <= |s| && forall i :: 0 <= i < e ==> s[i] >= 128
    requires e < |s| ==> s[e] < 128
    ensures End(s) == e
  {
  }

  lemma {:induction false} VarintBytesMean(v: nat)
    ensures Groups(VarintBytes(v)) == v && End(VarintBytes(v)) == |VarintBytes(v)| - 1
  {
    if 128 <= v {
      VarintBytesMean(v / 128);
      OneGroupMore((v % 128 + 128) as byte, VarintBytes(v / 128));
    } else {
      assert [v as byte][1..] == [];
    }
  }

  lemma OneGroupMore(b: byte, s: Slice)
    requires b >= 128
    ensures Groups([b] + s) == b as nat - 128 + 128 * Groups(s) && End([b] + s) == 1 + End(s)
  {
    assert ([b] + s)[1..] == s;
  }

  lemma {:induction false} VarintBytesShort(v: nat, n: nat)
    requires n > 0 && v < Pow128(n)
    ensures |VarintBytes(v)| <= n
  {
    if 128 <= v {
      assert Pow128(n) == 128 * Pow128(n - 1);
      VarintBytesShort(v / 128, n - 1);
    }
  }

  lemma FiveAndTen()
    ensures Pow128(5) == 0x8_0000_0000 && Pow128(10) == 0x40_0000_0000_0000_0000
  {
    assert Pow128(3) == 0x20_0000;
    assert Pow128(5) == 128 * (128 * Pow128(3));
    assert Pow128(7) == 128 * (128 * Pow128(5));
    assert Pow128(10) == 128 * (128 * (128 * Pow128(7)));
  }

  /** Decoding undoes encoding, whatever follows. */
  lemma VarintRoundTrip(v: nat, suffix: Slice, most: nat, modulus: nat)
    requires 0 < most && v < Pow128(most) && v < modulus
    ensures Varint(VarintBytes(v) + suffix, most, modulus) == Some((v, suffix))
  {
    hide VarintBytes, Groups, Pow128, End;
    var s := VarintBytes(v);
    VarintBytesMean(v);
    VarintBytesShort(v, most);
    EndAppend(s, suffix);
    assert (s + suffix)[..|s|] == s && (s + suffix)[|s|..] == suffix;
    NoWrap(v, modulus);
  }

  lemma NoWrap(v: nat, modulus: nat)
    requires v < modulus
    ensures v % modulus == v
  {
  }

  /** No encoding is cut short without notice. */
  lemma VarintTruncated(v: nat, n: nat, most: nat, modulus: nat)
    requires n < |VarintBytes(v)| && modulus > 0
    ensures Varint(VarintBytes(v)[..n], most, modulus) == None
  {
    VarintBytesMean(v);
    EndIs(VarintBytes(v)[..n], n);
  }

  // ------------------------------------------------------------------ varints: the code

  method EncodeVarint32(v: nat) returns (dst: Slice)
    requires v < TWO_32
    ensures dst == VarintBytes(v)
  {
    if v < 0x80 {
      dst := [v as byte];
    } else if v < 0x4000 {
      dst := [(v % 128 + 128) as byte, (v / 0x80) as byte];
    } else if v < 0x20_0000 {
      dst := [(v % 128 + 128) as byte, (v / 0x80 % 128 + 128) as byte, (v / 0x4000) as byte];
    } else if v < 0x1000_0000 {
      dst := [(v % 128 + 128) as byte, (v / 0x80 % 128 + 128) as byte, (v / 0x4000 % 128 + 128) as byte, (v / 0x20_0000) as byte];
    } else {
      dst := [(v % 128 + 128) as byte, (v / 0x80 % 128 + 128) as byte, (v / 0x4000 % 128 + 128) as byte,
              (v / 0x20_0000 % 128 + 128) as byte, (v / 0x1000_0000) as byte];
    }
    var a, b, c, d := v / 128, v / 0x4000, v / 0x20_0000, v / 0x1000_0000;
    assert a / 128 == b && b / 128 == c && c / 128 == d;
    assert d < 128 ==> VarintBytes(d) == [d as byte];
    assert VarintBytes(c) == if c < 128 then [c as byte] else [(c % 128 + 128) as byte] + VarintBytes(d);
    assert VarintBytes(b) == if b < 128 then [b as byte] else [(b % 128 + 128) as byte] + VarintBytes(c);
    assert VarintBytes(a) == if a < 128 then [a as byte] else [(a % 128 + 128) as byte] + VarintBytes(b);
  }

  method EncodeVarint64(v: nat) returns (dst: Slice)
    requires v < TWO_64
    ensures dst == VarintBytes(v)
  {
    dst := [];
    var left := v;
    while left >= 128
      invariant dst + VarintBytes(left) == VarintBytes(v)
    {
      assert dst + VarintBytes(left) == (dst + [(left % 128 + 128) as byte]) + VarintBytes(left / 128);
      dst := dst + [(left % 128 + 128) as byte];
      left := left / 128;
    }
    dst := dst + [left as byte];
  }

  method VarintLength(v: nat) returns (len: nat)
    requires v < TWO_64
    ensures len == |VarintBytes(v)|
  {
    len := 1;
    var left := v;
    while left >= 128
      invariant len - 1 + |VarintBytes(left)| == |VarintBytes(v)|
    {
      left := left / 128;
      len := len + 1;
    }
  }

  function LastUnmarked(s: Slice): Slice
    requires |s| > 0 && s[|s| - 1] >= 128
  {
    s[..|s| - 1] + [s[|s| - 1] - 128]
  }

  lemma OneGroupMarked(s: Slice, left: nat)
    requires left > 0
    ensures var t := s + [(left % 128 + 128) as byte];
            if left < 128 then LastUnmarked(t) == s + VarintBytes(left)
            else t + VarintBytes(left / 128) == s + VarintBytes(left)
  {
    hide VarintBytes;
    VarintStep(left);
    var b := (left % 128 + 128) as byte;
    if left < 128 {
      assert LastUnmarked(s + [b]) == s + [left as byte];
    } else {
      assert (s + [b]) + VarintBytes(left / 128) == s + ([b] + VarintBytes(left / 128));
    }
  }

  /** pb_encode_varint: the top bit goes on every byte, and off the last one again. */
  method PbEncodeVarint(value: nat) returns (buffer: Slice)
    ensures buffer == VarintBytes(value)
  {
    if value <= 0x7F {
      return [value as byte];
    }
    buffer := [];
    var left: nat := value;
    ghost var full := VarintBytes(value);
    while left != 0
      invariant left != 0 ==> buffer + VarintBytes(left) == full
      invariant left == 0 ==> |buffer| > 0 && buffer[|buffer| - 1] >= 128 && LastUnmarked(buffer) == full
      decreases left
    {
      hide *;
      OneGroupMarked(buffer, left);
      buffer := buffer + [(left % 128 + 128) as byte];
      left := left / 128;
    }
    buffer := LastUnmarked(buffer);
  }

  /** GetVarint32Ptr, its fast path and its fallback loop, and GetVarint32. */
  method GetVarint32(input: Slice) returns (r: Option<(nat, Slice)>)
    ensures r == Varint(input, 5, TWO_32)
  {
    if 0 < |input| && input[0] < 128 {
      assert input[..1] == [input[0]] && input[..1][1..] == [];
      assert Groups(input[..1]) == input[0] as nat;
      EndIs(input, 0);
      return Some((input[0] as nat, input[1..]));
    }
    r := GetGroups(input, 5, TWO_32);
  }

  /** GetVarint64Ptr and GetVarint64. */
  method GetVarint64(input: Slice) returns (r: Option<(nat, Slice)>)
    ensures r == Varint(input, 10, TWO_64)
  {
    r := GetGroups(input, 10, TWO_64);
  }

  /** The loop the two decoders share but for their width. */
  method GetGroups(input: Slice, most: nat, modulus: nat) returns (r: Option<(nat, Slice)>)
    requires modulus == TWO_32 || modulus == TWO_64
    ensures r == Varint(input, most, modulus)
  {
    var result, p, unit := 0, 0, 1;
    while p < most && p < |input|
      invariant p <= |input| && p <= most && unit == Pow128(p)
      invariant forall i :: 0 <= i < p ==> input[i] >= 128
      invariant result == Groups(input[..p]) % modulus
    {
      hide Groups;
      var b := input[p] as nat;
      OneGroupRead(input, p, modulus);
      result := (result + b % 128 * unit) % modulus;
      p := p + 1;
      if b < 128 {
        EndIs(input, p - 1);
        return Some((result, input[p..]));
      }
      unit := unit * 128;
    }
    r := None;
  }

  lemma ModAdd(a: nat, b: nat, m: nat)
    requires m == TWO_32 || m == TWO_64
    ensures (a % m + b) % m == (a + b) % m
  {
  }

  lemma OneGroupRead(s: Slice, p: nat, modulus: nat)
    requires p < |s| && (modulus == TWO_32 || modulus == TWO_64)
    ensures Groups(s[..p + 1]) % modulus == (Groups(s[..p]) % modulus + (s[p] as nat % 128) * Pow128(p)) % modulus
  {
    hide Groups, Pow128;
    GroupsAppend(s[..p], s[p]);
    assert s[..p + 1] == s[..p] + [s[p]];
    ModAdd(Groups(s[..p]), (s[p] as nat % 128) * Pow128(p), modulus);
  }

  /** pb_decode_varint reads a stream byte by byte and gives up past bit 63. */
  method PbDecodeVarint(stream: Slice) returns (r: Option<(nat, Slice)>)
    ensures r == Varint(stream, 10, TWO_64)
  {
    var bitpos, result, p, unit := 0, 0, 0, 1;
    while true
      invariant p <= |stream| && p <= 10 && bitpos == 7 * p && unit == Pow128(p)
      invariant forall i :: 0 <= i < p ==> stream[i] >= 128
      invariant result == Groups(stream[..p]) % TWO_64
      decreases |stream| - p
    {
      if bitpos >= 64 || p == |stream| {
        return None;
      }
      hide Groups;
      var b := stream[p] as nat;
      OneGroupRead(stream, p, TWO_64);
      result := (result + b % 128 * unit) % TWO_64;
      bitpos, p, unit := bitpos + 7, p + 1, unit * 128;
      if b < 128 {
        EndIs(stream, p - 1);
        return Some((result, stream[p..]));
      }
    }
  }

  // ------------------------------------------------------------------ zigzag

  const MIN_INT64: int := -0x8000_0000_0000_0000
  const MAX_INT64: int := 0x7FFF_FFFF_FFFF_FFFF

  /** The 64-bit pattern of an integer, and back. */
  function Unsigned(x: int): nat { x % TWO_64 }
  function Signed(u: nat): int { if u < TWO_64 / 2 then u else u - TWO_64 }
  function Not(u: nat): int { TWO_64 - 1 - u }

  /** pb_encode_svarint. */
  function ZigZag(value: int): int
  {
    if value < 0 then Not(Unsigned(value) * 2 % TWO_64) else Unsigned(value) * 2 % TWO_64
  }

  /** pb_decode_svarint. */
  function UnZigZag(value: nat): int
    requires value < TWO_64
  {
    if value % 2 == 1 then Signed(Not(value / 2)) else Signed(value / 2)
  }

  lemma ZigZagRoundTrip(x: int)
    requires MIN_INT64 <= x <= MAX_INT64
    ensures 0 <= ZigZag(x) < TWO_64 && UnZigZag(ZigZag(x)) == x
    ensures ZigZag(x) == if x < 0 then -2 * x - 1 else 2 * x
  {
    var u := Unsigned(x);
    assert u == if x < 0 then x + TWO_64 else x;
    assert u * 2 % TWO_64 == if x < 0 then 2 * x + TWO_64 else 2 * x;
  }

  // ------------------------------------------------------------------ fixed width

  function Fixed(v: nat, width: nat): (r: Slice)
    ensures |r| == width
  {
    if width == 0 then [] else [(v % 256) as byte] + Fixed(v / 256, width - 1)
  }

  /** DecodeFixed32 and DecodeFixed64: least significant byte first. */
  function FixedValue(s: Slice): nat
  {
    if s == [] then 0 else s[0] as nat + 256 * FixedValue(s[1..])
  }

  function Pow256(n: nat): nat { if n == 0 then 1 else 256 * Pow256(n - 1) }

  lemma FixedPowers()
    ensures Pow256(4) == TWO_32 && Pow256(8) == TWO_64
  {
    assert Pow256(6) == 256 * (256 * Pow256(4));
  }

  lemma {:induction false} FixedRoundTrip(v: nat, width: nat)
    requires v < Pow256(width)
    ensures FixedValue(Fixed(v, width)) == v
  {
    if width > 0 {
      FixedRoundTrip(v / 256, width - 1);
      assert Fixed(v, width)[1..] == Fixed(v / 256, width - 1);
    }
  }

  // ------------------------------------------------------------------ length-prefixed strings

  function LengthPrefixed(s: Slice): Slice
  {
    VarintBytes(|s|) + s
  }

  method GetLengthPrefixedSlice(input: Slice) returns (r: Option<(Slice, Slice)>)
    ensures r == Prefixed(input)
  {
    var len := GetVarint32(input);
    if len.Some? && |len.value.1| >= len.value.0 {
      return Some((len.value.1[..len.value.0], len.value.1[len.value.0..]));
    }
    r := None;
  }

  function Prefixed(input: Slice): Option<(Slice, Slice)>
  {
    match Varint(input, 5, TWO_32)
    case None => None
    case Some((n, rest)) => if n <= |rest| then Some((rest[..n], rest[n..])) else None
  }

  lemma PrefixedRoundTrip(s: Slice, suffix: Slice)
    requires |s| < TWO_32
    ensures Prefixed(LengthPrefixed(s) + suffix) == Some((s, suffix))
  {
    FiveAndTen();
    assert LengthPrefixed(s) + suffix == VarintBytes(|s|) + (s + suffix);
    VarintRoundTrip(|s|, s + suffix, 5, TWO_32);
    assert (s + suffix)[..|s|] == s && (s + suffix)[|s|..] == suffix;
  }
}
