/** Scalar fields of nanopb (pb_encode.c, pb_decode.c): varints of 32 bits, integers of any width, fixed-width values. */
module PbScalars {
  import opened Bytes
  import opened InternalKeys
  import opened Coding

  // ------------------------------------------------------------------ bitwise or

  function Or(a: nat, b: nat): nat
    decreases a + b
  {
    if a == 0 then b else if b == 0 then a
    else (if a % 2 == 1 || b % 2 == 1 then 1 else 0) + 2 * Or(a / 2, b / 2)
  }

  /** Bits that do not meet add up. */
  lemma {:induction false} OrShifted(a: nat, c: nat, k: nat)
    requires a < Pow2(k)
    ensures Or(a, c * Pow2(k)) == a + c * Pow2(k)
  {
    if k > 0 && a > 0 && c > 0 {
      var p := Pow2(k - 1);
      assert c * Pow2(k) == 2 * (c * p);
      assert c * p > 0;
      OrShifted(a / 2, c, k - 1);
    }
  }

  // ------------------------------------------------------------------ pb_decode_varint32

  /** (uint32_t)(byte & 0x7F) << bitpos */
  function Shifted(b: byte, bitpos: nat): nat
  {
    (b as nat % 128) * Pow2(bitpos) % TWO_32
  }

  /** bitpos at byte `i`; the counter is eight bits wide. */
  function BitPos(i: nat): nat { 7 * i % 256 }

  /** The bits of the first `n` bytes that find room in 32 bits; where the counter wrapped, they land on others. */
  function Collected(s: Slice, n: nat): nat
    requires n <= |s|
  {
    if n == 0 then 0
    else if BitPos(n - 1) < 32 then Or(Collected(s, n - 1), Shifted(s[n - 1], BitPos(n - 1)))
    else Collected(s, n - 1)
  }

  /** A byte past the 32 bits is empty, or all ones to go with a set top bit. */
  predicate NothingLost(s: Slice, i: nat)
    requires i < |s|
  {
    BitPos(i) < 32 || s[i] % 128 == 0
    || (Collected(s, i) >= 0x8000_0000 && s[i] == if BitPos(i) < 63 then 0xFF else 0x01)
  }

  /** No byte is an overflow, and if the fifth one is the last it has no bits above the four that fit. */
  predicate Accepted(s: Slice)
    requires End(s) < |s|
  {
    && (forall i :: 0 <= i <= End(s) ==> NothingLost(s, i))
    && (BitPos(End(s)) == 28 ==> s[End(s)] < 16)
  }

  function Varint32(s: Slice): (r: Option<(nat, Slice)>)
    ensures r.Some? ==> |r.value.1| < |s|
  {
    var e := End(s);
    if e < |s| && Accepted(s) then Some((Collected(s, e + 1), s[e + 1..])) else None
  }

  /** The loop comes to byte `i`: more bytes follow all earlier ones, and none of those is an overflow. */
  ghost predicate Reaches(s: Slice, i: nat)
    requires i <= |s|
  {
    forall j :: 0 <= j < i ==> s[j] >= 128 && NothingLost(s, j)
  }

  method PbDecodeVarint32(stream: Slice) returns (r: Option<(nat, Slice)>)
    ensures r == Varint32(stream)
  {
    hide Reaches, NothingLost, Collected, End, Accepted, Shifted, Or, Varint32, BitPos;
    if stream == [] { NeverEnds(stream); return None; }
    var b := stream[0];
    var result: nat := b as nat % 128;
    FirstByte(stream);
    if b < 128 {
      StopsAt(stream, 0);
      return Some((result, stream[1..]));
    }
    var bitpos, i := 7, 1;
    while true
      invariant 1 <= i <= |stream| && bitpos == BitPos(i) && result == Collected(stream, i) && Reaches(stream, i)
      decreases |stream| - i
    {
      if i == |stream| {
        NeverEnds(stream);
        return None;
      }
      b := stream[i];
      var step := Accumulate(result, bitpos, b);
      Step(stream, i, step);
      StopsAt(stream, i);
      NextPos(i);
      if step.None? {
        return None;
      }
      result := step.value;
      bitpos := (bitpos + 7) % 256;
      if b < 128 {
        if bitpos == 35 && b / 16 % 8 != 0 { return None; }
        return Some((result, stream[i + 1..]));
      }
      i := i + 1;
    }
  }

  /** What a further byte does to the result; None is an overflow. */
  method Accumulate(result: nat, bitpos: nat, b: byte) returns (r: Option<nat>)
    ensures r.None? <==> bitpos >= 32 && b % 128 != 0 && (result < 0x8000_0000 || b != if bitpos < 63 then 0xFF else 0x01)
    ensures r.Some? ==> r.value == if bitpos < 32 then Or(result, Shifted(b, bitpos)) else result
  {
    if bitpos >= 32 {
      var signExtension: byte := if bitpos < 63 then 0xFF else 0x01;
      if b % 128 != 0 && (result / 0x8000_0000 == 0 || b != signExtension) { return None; }
      return Some(result);
    }
    r := Some(Or(result, Shifted(b, bitpos)));
  }

  lemma FirstByte(s: Slice)
    requires s != []
    ensures BitPos(0) == 0 && BitPos(1) == 7 && Reaches(s, 0) && NothingLost(s, 0)
    ensures Collected(s, 1) == s[0] as nat % 128 && (s[0] >= 128 ==> Reaches(s, 1))
  {
    assert Collected(s, 0) == 0;
  }

  lemma Step(s: Slice, i: nat, step: Option<nat>)
    requires 1 <= i < |s|
    requires step.None? <==> BitPos(i) >= 32 && s[i] % 128 != 0 && (Collected(s, i) < 0x8000_0000 || s[i] != if BitPos(i) < 63 then 0xFF else 0x01)
    requires step.Some? ==> step.value == if BitPos(i) < 32 then Or(Collected(s, i), Shifted(s[i], BitPos(i))) else Collected(s, i)
    ensures NothingLost(s, i) <==> step.Some?
    ensures step.Some? ==> step.value == Collected(s, i + 1)
    ensures step.Some? && s[i] >= 128 && Reaches(s, i) ==> Reaches(s, i + 1)
  {
    hide Or, Shifted;
  }

  lemma NextPos(i: nat)
    ensures BitPos(i) < 256 && BitPos(i + 1) == (BitPos(i) + 7) % 256
    ensures BitPos(i + 1) == 35 <==> BitPos(i) == 28
  {
    var x := 7 * i;
    assert 7 * (i + 1) == x + 7;
    SevenOn(x, x / 256, x % 256);
  }

  lemma SevenOn(x: nat, q: nat, r: nat)
    requires x == 256 * q + r && r < 256
    ensures x % 256 == r && (x + 7) % 256 == (r + 7) % 256 == if r < 249 then r + 7 else r - 249
  {
    assert x + 7 == if r < 249 then 256 * q + (r + 7) else 256 * (q + 1) + (r - 249);
  }

  lemma NeverEnds(s: Slice)
    requires s == [] || Reaches(s, |s|)
    ensures Varint32(s) == None
  {
    EndIs(s, |s|);
  }

  /** An overflow before the last byte, or at it, or none. */
  lemma StopsAt(s: Slice, i: nat)
    requires i < |s| && Reaches(s, i)
    ensures !NothingLost(s, i) ==> Varint32(s) == None
    ensures NothingLost(s, i) && s[i] < 128 ==>
              Varint32(s) == if BitPos(i) == 28 && s[i] >= 16 then None else Some((Collected(s, i + 1), s[i + 1..]))
  {
    hide NothingLost, Collected;
    assert i <= End(s);
    if s[i] < 128 { EndIs(s, i); }
  }

  // ------------------------------------------------------------------ against the 64-bit decoder

  lemma SevenMore(n: nat)
    ensures Pow2(n + 7) == 128 * Pow2(n)
  {
    assert Pow2(n + 2) == 4 * Pow2(n);
    assert Pow2(n + 4) == 4 * Pow2(n + 2);
    assert Pow2(n + 6) == 4 * Pow2(n + 4);
  }

  lemma Powers()
    ensures Pow2(0) == 1 && Pow2(7) == 0x80 && Pow2(14) == 0x4000 && Pow2(21) == 0x20_0000 && Pow2(28) == 0x1000_0000
    ensures Pow128(0) == 1 && Pow128(1) == 0x80 && Pow128(2) == 0x4000 && Pow128(3) == 0x20_0000 && Pow128(4) == 0x1000_0000
  {
    SevenMore(0);
    SevenMore(7);
    SevenMore(14);
    SevenMore(21);
    assert Pow128(2) == 128 * Pow128(1);
    assert Pow128(3) == 128 * Pow128(2);
    assert Pow128(4) == 128 * Pow128(3);
  }

  /** A further byte among the first five: its group goes above what is there, as far as it fits. */
  lemma GroupFits(low: nat, b: byte, i: nat, unit: nat)
    requires i <= 4 && unit == Pow2(7 * i) && low < unit
    ensures Or(low, Shifted(b, BitPos(i))) == (low + b as nat % 128 * unit) % TWO_32
    ensures i < 4 ==> low + b as nat % 128 * unit < Pow2(7 * i + 7)
  {
    hide Or, Pow2;
    Powers();
    var g := b as nat % 128;
    if i == 4 {
      FifthFits(low, g);
      OrShifted(low, g % 16, 28);
    } else {
      assert unit == 1 || unit == 0x80 || unit == 0x4000 || unit == 0x20_0000;
      UnitFits(low, g, unit);
      OrShifted(low, g, 7 * i);
    }
  }

  lemma UnitFits(low: nat, g: nat, unit: nat)
    requires (unit == 1 || unit == 0x80 || unit == 0x4000 || unit == 0x20_0000) && low < unit && g < 128
    ensures g * unit % TWO_32 == g * unit && low + g * unit < 128 * unit <= 0x1000_0000
    ensures (low + g * unit) % TWO_32 == low + g * unit
  {
    if unit == 1 {
    } else if unit == 0x80 {
    } else if unit == 0x4000 {
    } else {
    }
  }

  lemma FifthFits(low: nat, g: nat)
    requires low < 0x1000_0000 && g < 128
    ensures g * 0x1000_0000 % TWO_32 == g % 16 * 0x1000_0000
    ensures (low + g * 0x1000_0000) % TWO_32 == low + g % 16 * 0x1000_0000
  {
    assert g == g / 16 * 16 + g % 16;
  }

  /** Up to five bytes, the result is what the groups spell, in 32 bits. */
  lemma {:induction false} CollectedIsLow(s: Slice, n: nat)
    requires n <= |s| && n <= 5
    ensures Collected(s, n) == Groups(s[..n]) % TWO_32
    ensures n <= 4 ==> Groups(s[..n]) < Pow2(7 * n)
  {
    UnitsAgree();
    if n == 0 {
      assert s[..0] == [];
    } else {
      hide Or, Pow2, Pow128, Shifted, BitPos, Groups, Collected;
      CollectedIsLow(s, n - 1);
      OneByteMore(s, n);
      var low, unit := Groups(s[..n - 1]), Pow128(n - 1);
      assert low < unit;
      GroupFits(low, s[n - 1], n - 1, unit);
      LowMod(low, unit);
    }
  }

  lemma LowMod(low: nat, unit: nat)
    requires low < unit <= 0x1000_0000
    ensures low % TWO_32 == low
  {
  }

  lemma OneByteMore(s: Slice, n: nat)
    requires 0 < n <= |s| && BitPos(n - 1) < 32
    ensures Collected(s, n) == Or(Collected(s, n - 1), Shifted(s[n - 1], BitPos(n - 1)))
    ensures Groups(s[..n]) == Groups(s[..n - 1]) + s[n - 1] as nat % 128 * Pow128(n - 1)
  {
    hide Or, Shifted;
    assert s[..n] == s[..n - 1] + [s[n - 1]];
    GroupsAppend(s[..n - 1], s[n - 1]);
  }

  /** The first five places, as shifts and as powers of 128. */
  lemma UnitsAgree()
    ensures Pow2(0) == 1 && Pow128(0) == 1
    ensures forall i :: 0 <= i <= 4 ==> Pow2(7 * i) == Pow128(i) <= 0x1000_0000 && BitPos(i) < 32
  {
    Powers();
    forall i | 0 <= i <= 4
      ensures Pow2(7 * i) == Pow128(i) <= 0x1000_0000
    {
      if i == 0 {} else if i == 1 {} else if i == 2 {} else if i == 3 {} else {}
    }
  }

  /** Until the counter wraps, no later byte adds to it. */
  lemma {:induction false} CollectedStays(s: Slice, n: nat)
    requires 5 <= n <= |s| && n <= 37
    ensures Collected(s, n) == Groups(s[..5]) % TWO_32
  {
    hide Or, Shifted, Groups;
    if n == 5 {
      CollectedIsLow(s, 5);
    } else {
      CollectedStays(s, n - 1);
      PastFive(n - 1);
    }
  }

  lemma PastFive(i: nat)
    requires 5 <= i <= 36
    ensures BitPos(i) == 7 * i >= 32
  {
  }

  /** All groups from byte 5 to byte `e` are empty, and the value fits 32 bits. */
  predicate Zero(s: Slice, e: nat)
    requires 5 <= e < |s|
  {
    s[4] % 128 < 16 && forall i :: 5 <= i <= e ==> s[i] % 128 == 0
  }

  /** Bits 31 to 62 are set. */
  predicate Ones(s: Slice)
    requires 9 < |s|
  {
    s[4] % 128 >= 120 && forall i :: 5 <= i <= 8 ==> s[i] == 0xFF
  }

  /** What pb_decode_varint makes of the input, if that is a 32-bit value or the sign extension of one. */
  function Narrowed(s: Slice): Option<(nat, Slice)>
  {
    match Varint(s, 10, TWO_64)
    case None => None
    case Some((v, rest)) =>
      if v < TWO_32 then Some((v, rest))
      else if v >= TWO_64 - 0x8000_0000 then Some((v % TWO_32, rest))
      else None
  }

  /** The tenth byte has bits the 64-bit decoder drops, and without them it spells a narrow value. */
  predicate Cut(s: Slice, e: nat)
    requires e < |s|
  {
    e == 9 && s[9] >= 2 && ((s[9] % 2 == 0 && Zero(s, 8)) || (s[9] % 2 == 1 && Ones(s)))
  }

  /** The inputs on which the two decoders agree, told by their bytes. */
  predicate Agreeing(s: Slice)
  {
    var e := End(s);
    || e == |s| || e < 5
    || (if Accepted(s) then e <= 9 && (Zero(s, e) || (e == 9 && Ones(s) && s[9] == 1)) else !Cut(s, e))
  }

  lemma {:induction false} GroupsBounds(s: Slice)
    ensures Groups(s) < Pow128(|s|)
    ensures Groups(s) == 0 <==> forall i :: 0 <= i < |s| ==> s[i] % 128 == 0
    ensures Groups(s) == Pow128(|s|) - 1 <==> forall i :: 0 <= i < |s| ==> s[i] % 128 == 127
  {
    if s != [] {
      GroupsBounds(s[1..]);
      assert forall i :: 0 < i < |s| ==> s[i] == s[1..][i - 1];
      assert forall i :: 0 <= i < |s| - 1 ==> s[1..][i] == s[i + 1];
    }
  }

  lemma OneFactorMore(p: nat, g: nat)
    ensures 128 * (p * g) == (128 * p) * g
  {
  }

  lemma {:induction false} GroupsConcat(a: Slice, b: Slice)
    ensures Groups(a + b) == Groups(a) + Pow128(|a|) * Groups(b)
  {
    if a == [] {
      assert a + b == b;
    } else {
      assert (a + b)[1..] == a[1..] + b;
      GroupsConcat(a[1..], b);
      OneFactorMore(Pow128(|a| - 1), Groups(b));
    }
  }

  lemma PowersOf128()
    ensures Pow128(4) == 0x1000_0000 && Pow128(5) == 0x8_0000_0000
    ensures forall n :: 0 <= n <= 4 ==> Pow128(n) <= 0x1000_0000
  {
    Powers();
    FiveAndTen();
  }

  /** The first five groups: whether they fit 32 bits, and whether their upper bits are all set. */
  lemma FirstFive(s: Slice)
    requires 5 <= |s|
    ensures Groups(s[..5]) < 0x8_0000_0000
    ensures Groups(s[..5]) < TWO_32 <==> s[4] % 128 < 16
    ensures Groups(s[..5]) >= 0x8_0000_0000 - 0x8000_0000 <==> s[4] % 128 >= 120
  {
    hide Groups, Pow128;
    PowersOf128();
    GroupsBounds(s[..4]);
    assert s[..5] == s[..4] + [s[4]];
    GroupsAppend(s[..4], s[4]);
  }

  /** Six to nine bytes: the value, and when it is narrow. */
  lemma UpToNine(s: Slice, e: nat)
    requires 5 <= e <= 8 && e < |s|
    ensures var v := Groups(s[..e + 1]);
            && v < TWO_64 - 0x8000_0000
            && (v < TWO_32 <==> Zero(s, e))
            && (Zero(s, e) ==> v == Groups(s[..5]) % TWO_32)
  {
    hide Groups, Pow128;
    PowersOf128();
    FirstFive(s);
    var tail := s[5..e + 1];
    assert s[..e + 1] == s[..5] + tail;
    GroupsConcat(s[..5], tail);
    GroupsBounds(tail);
    TailOf(s, e, tail);
    UpToNineValue(Groups(s[..5]), Groups(tail), Pow128(|tail|));
  }

  lemma TailOf(s: Slice, e: nat, tail: Slice)
    requires 5 <= e < |s| && tail == s[5..e + 1]
    ensures (forall i :: 5 <= i <= e ==> s[i] % 128 == 0) <==> (forall i :: 0 <= i < |tail| ==> tail[i] % 128 == 0)
    ensures (forall i :: 5 <= i <= e ==> s[i] % 128 == 127) <==> (forall i :: 0 <= i < |tail| ==> tail[i] % 128 == 127)
  {
    assert forall i :: 0 <= i < |tail| ==> tail[i] == s[5 + i];
    assert forall i :: 5 <= i <= e ==> s[i] == tail[i - 5];
  }

  lemma UpToNineValue(low: nat, high: nat, bound: nat)
    requires low < 0x8_0000_0000 && high < bound <= 0x1000_0000
    ensures var v := low + 0x8_0000_0000 * high;
            && v < TWO_64 - 0x8000_0000
            && (v < TWO_32 <==> low < TWO_32 && high == 0)
            && (v < TWO_32 ==> v == low % TWO_32)
  {
  }

  /** Ten bytes: what is left of the value in 64 bits, and when it is narrow. */
  lemma TenBytes(s: Slice)
    requires 9 < |s| && s[9] < 128 && forall i :: 5 <= i <= 8 ==> s[i] >= 128
    ensures var v := Groups(s[..10]) % TWO_64;
            && (v < TWO_32 <==> s[9] % 2 == 0 && Zero(s, 8))
            && (v >= TWO_64 - 0x8000_0000 <==> s[9] % 2 == 1 && Ones(s))
            && (v < TWO_32 || v >= TWO_64 - 0x8000_0000 ==> v % TWO_32 == Groups(s[..5]) % TWO_32)
  {
    hide Groups, Pow128;
    PowersOf128();
    FirstFive(s);
    var low, tail, last := Groups(s[..5]), s[5..9], s[9] as nat;
    GroupsBounds(tail);
    TailOf(s, 8, tail);
    assert Ones(s) <==> low >= 0x8_0000_0000 - 0x8000_0000 && Groups(tail) == 0x0FFF_FFFF by {
      assert forall i :: 5 <= i <= 8 ==> (s[i] == 0xFF <==> s[i] % 128 == 127);
    }
    TenBytesSplit(s);
    TenBytesValue(low, Groups(tail), last);
  }

  lemma TenBytesSplit(s: Slice)
    requires 9 < |s| && s[9] < 128
    ensures Groups(s[..10]) == Groups(s[..5]) + 0x8_0000_0000 * Groups(s[5..9]) + s[9] as nat * 0x8000_0000_0000_0000
  {
    hide Groups, Pow128;
    FiveAndTen();
    Pow128Nine();
    var tail := s[5..9];
    assert s[..9] == s[..5] + tail && s[..10] == s[..9] + [s[9]];
    GroupsConcat(s[..5], tail);
    GroupsAppend(s[..9], s[9]);
  }

  lemma Pow128Nine()
    ensures Pow128(9) == 0x8000_0000_0000_0000
  {
    FiveAndTen();
    assert Pow128(10) == 128 * Pow128(9);
  }

  lemma TenBytesValue(low: nat, middle: nat, last: nat)
    requires low < 0x8_0000_0000 && middle < 0x1000_0000 && last < 128
    ensures var v := (low + 0x8_0000_0000 * middle + last * 0x8000_0000_0000_0000) % TWO_64;
            && v == low + 0x8_0000_0000 * middle + last % 2 * 0x8000_0000_0000_0000
            && (v < TWO_32 <==> low < TWO_32 && middle == 0 && last % 2 == 0)
            && (v >= TWO_64 - 0x8000_0000 <==> low >= 0x8_0000_0000 - 0x8000_0000 && middle == 0x0FFF_FFFF && last % 2 == 1)
            && (v < TWO_32 || v >= TWO_64 - 0x8000_0000 ==> v % TWO_32 == low % TWO_32)
  {
    assert last == 2 * (last / 2) + last % 2;
    assert last * 0x8000_0000_0000_0000 == last / 2 * TWO_64 + last % 2 * 0x8000_0000_0000_0000;
  }

  lemma NarrowedIs(s: Slice)
    requires End(s) < |s| && End(s) <= 9
    ensures var e := End(s);
            var v := Groups(s[..e + 1]) % TWO_64;
            Narrowed(s) == if v < TWO_32 then Some((v, s[e + 1..])) else if v >= TWO_64 - 0x8000_0000 then Some((v % TWO_32, s[e + 1..])) else None
  {
    hide Groups, End;
  }

  lemma AcceptedShort(s: Slice)
    requires End(s) < |s| && End(s) <= 4
    ensures Accepted(s) <==> (End(s) == 4 ==> s[4] < 16)
  {
    hide Collected, End;
    forall i | 0 <= i <= End(s)
      ensures NothingLost(s, i)
    {
      assert BitPos(i) == 7 * i;
    }
    assert BitPos(End(s)) == 7 * End(s);
  }

  /** One to five bytes: nothing is lost, or the fifth byte says that the value is too large. */
  lemma ShortAgree(s: Slice)
    requires End(s) < |s| && End(s) <= 4
    ensures Varint32(s) == Narrowed(s)
  {
    hide Groups, Pow128, Collected, Pow2, Accepted, End, Narrowed, Varint32;
    var e := End(s);
    var v := Groups(s[..e + 1]);
    NarrowedIs(s);
    AcceptedShort(s);
    CollectedIsLow(s, e + 1);
    Varint32Unfolds(s);
    if e == 4 {
      FirstFive(s);
    } else {
      ShortFits(s, e + 1);
    }
    InRangeMods(v);
  }

  lemma Varint32Unfolds(s: Slice)
    requires End(s) < |s|
    ensures Varint32(s) == if Accepted(s) then Some((Collected(s, End(s) + 1), s[End(s) + 1..])) else None
  {
    hide Accepted, Collected, End;
  }

  lemma InRangeMods(v: nat)
    requires v < 0x8_0000_0000
    ensures v % TWO_64 == v && (v < TWO_32 ==> v % TWO_32 == v)
  {
  }

  lemma ShortFits(s: Slice, n: nat)
    requires n <= 4 && n <= |s|
    ensures Groups(s[..n]) < 0x1000_0000
  {
    hide Groups, Pow128;
    PowersOf128();
    GroupsBounds(s[..n]);
  }

  /** Whether a longer input is accepted, byte by byte. */
  lemma AcceptedLong(s: Slice)
    requires 5 <= End(s) < |s| && End(s) <= 9
    ensures Accepted(s) <==> forall i :: 5 <= i <= End(s) ==> Tolerated(s, i)
  {
    hide Collected, Groups, End;
    var e := End(s);
    assert forall i :: 0 <= i <= e ==> BitPos(i) == 7 * i;
    forall i | 5 <= i <= e
      ensures NothingLost(s, i) <==> Tolerated(s, i)
    {
      CollectedStays(s, i);
    }
  }

  /** Byte `i` of six to ten is empty or repeats the sign of the first 32 bits. */
  predicate Tolerated(s: Slice, i: nat)
    requires 5 <= i < |s|
  {
    s[i] % 128 == 0 || (Groups(s[..5]) % TWO_32 >= 0x8000_0000 && s[i] == if i < 9 then 0xFF else 0x01)
  }

  lemma NarrowIsTolerated(s: Slice, e: nat)
    requires 5 <= e < |s| && e <= 9
    ensures Zero(s, e) ==> forall i :: 5 <= i <= e ==> Tolerated(s, i)
    ensures e == 9 && Ones(s) && s[9] == 1 ==> forall i :: 5 <= i <= e ==> Tolerated(s, i)
    ensures e == 9 && 2 <= s[9] < 128 ==> !Tolerated(s, 9)
    ensures e == 9 && s[9] == 0 ==> (Zero(s, 9) <==> Zero(s, 8))
    ensures e == 9 && s[9] % 128 != 0 ==> !Zero(s, 9)
  {
    hide Groups;
    FirstFive(s);
  }

  /** Six to nine bytes are accepted if the value is narrow, and else may be. */
  lemma NineAgree(s: Slice)
    requires 5 <= End(s) < |s| && End(s) <= 8
    ensures Varint32(s) == Narrowed(s) <==> Agreeing(s)
  {
    hide Groups, Collected, Accepted, End, Zero, Ones, Tolerated, Narrowed, Varint32;
    var e := End(s);
    NarrowedIs(s);
    AcceptedLong(s);
    CollectedStays(s, e + 1);
    NarrowIsTolerated(s, e);
    UpToNine(s, e);
    Varint32Unfolds(s);
  }

  lemma TenAgree(s: Slice)
    requires End(s) == 9 < |s|
    ensures Varint32(s) == Narrowed(s) <==> Agreeing(s)
  {
    hide Groups, Collected, Accepted, End, Zero, Ones, Tolerated, Narrowed, Varint32;
    LastByte(s);
    NarrowedIs(s);
    AcceptedLong(s);
    CollectedStays(s, 10);
    NarrowIsTolerated(s, 9);
    TenBytes(s);
    Varint32Unfolds(s);
  }

  lemma LastByte(s: Slice)
    requires End(s) < |s|
    ensures s[End(s)] < 128 && forall i :: 0 <= i < End(s) ==> s[i] >= 128
  {
  }

  /**
   * On any input, the 32-bit decoder makes of it what the 64-bit decoder makes of it, where that is
   * a 32-bit value or the sign extension of one, if and only if its bytes are as `Agreeing` says.
   */
  lemma Varint32IsNarrowedIff(s: Slice)
    ensures Varint32(s) == Narrowed(s) <==> Agreeing(s)
  {
    hide Groups, Collected, Accepted, End, Cut, Zero, Ones;
    if End(s) < |s| {
      if End(s) < 5 {
        ShortAgree(s);
      } else if End(s) <= 8 {
        NineAgree(s);
      } else if End(s) == 9 {
        TenAgree(s);
      } else {
        NotCut(s);
      }
    }
  }

  lemma NotCut(s: Slice)
    requires 9 < End(s) < |s|
    ensures !Cut(s, End(s))
  {
  }

  /** A value of 35 bits that is read as zero, although its groups spell more than 32 bits hold. */
  lemma TooLargeIsZero()
    ensures Varint32([0x80, 0x80, 0x80, 0x80, 0xF0, 0x00]) == Some((0, []))
    ensures Varint([0x80, 0x80, 0x80, 0x80, 0xF0, 0x00], 10, TWO_64) == Some((0x7_0000_0000, []))
    ensures !Agreeing([0x80, 0x80, 0x80, 0x80, 0xF0, 0x00])
  {
    var s: Slice := [0x80, 0x80, 0x80, 0x80, 0xF0, 0x00];
    EndIs(s, 5);
    hide End, Collected, Groups, Accepted, Tolerated, Varint32;
    TooLargeGroups();
    AcceptedLong(s);
    TooLargeIsTolerated();
    CollectedStays(s, 6);
    assert s[6..] == [];
    NineAgree(s);
    Varint32Unfolds(s);
  }

  lemma TooLargeIsTolerated()
    ensures Tolerated([0x80, 0x80, 0x80, 0x80, 0xF0, 0x00], 5)
  {
    hide Groups;
  }

  lemma TooLargeGroups()
    ensures var s: Slice := [0x80, 0x80, 0x80, 0x80, 0xF0, 0x00];
            Groups(s[..5]) == Groups(s[..6]) == 0x7_0000_0000
  {
    var s: Slice := [0x80, 0x80, 0x80, 0x80, 0xF0, 0x00];
    hide Groups, Pow128;
    PowersOf128();
    assert s[..5] == s[..4] + [s[4]] && s[..6] == s[..5] + [s[5]];
    GroupsBounds(s[..4]);
    GroupsAppend(s[..4], s[4]);
    GroupsAppend(s[..5], s[5]);
  }

  /** Every 32-bit value is read back. */
  lemma Varint32RoundTrip(v: nat, suffix: Slice)
    requires v < TWO_32
    ensures Varint32(VarintBytes(v) + suffix) == Some((v, suffix))
  {
    hide VarintBytes, Varint32, Pow128, Groups, End, Accepted;
    FiveAndTen();
    VarintRoundTrip(v, suffix, 10, TWO_64);
    VarintBytesMean(v);
    VarintBytesShort(v, 5);
    EndAppend(VarintBytes(v), suffix);
    Varint32IsNarrowedIff(VarintBytes(v) + suffix);
  }

  /** A negative 32-bit value written as ten bytes, sign-extended to 64 bits, is read as its low 32 bits. */
  lemma SignExtendedIsRead(low: nat, suffix: Slice)
    requires 0x8000_0000 <= low < TWO_32
    ensures Varint32(VarintBytes(TWO_64 - TWO_32 + low) + suffix) == Some((low, suffix))
  {
    hide VarintBytes, Varint32, Pow128, Groups, Accepted, Ones, Zero;
    var v := TWO_64 - TWO_32 + low;
    var s := VarintBytes(v);
    FiveAndTen();
    VarintRoundTrip(v, suffix, 10, TWO_64);
    VarintBytesMean(v);
    VarintBytesShort(v, 10);
    EndAppend(s, suffix);
    TenLong(v);
    var t := s + suffix;
    assert t[..10] == s && forall i :: 0 <= i < 10 ==> t[i] == s[i];
    TenBytes(t);
    OnesAreAccepted(t);
    Varint32IsNarrowedIff(t);
  }

  /** The encoding of a negative number has ten bytes, the last of them a one. */
  lemma TenLong(v: nat)
    requires 0x8000_0000_0000_0000 <= v < TWO_64
    ensures |VarintBytes(v)| == 10 && VarintBytes(v)[9] == 1
  {
    hide VarintBytes, Pow128, Groups, End;
    var s := VarintBytes(v);
    FiveAndTen();
    Pow128Nine();
    VarintBytesMean(v);
    VarintBytesShort(v, 10);
    GroupsBounds(s);
    if |s| < 10 { Pow128Grows(|s|, 9); }
    assert s == s[..9] + [s[9]];
    GroupsAppend(s[..9], s[9]);
    GroupsBounds(s[..9]);
    LastByte(s);
  }

  lemma {:induction false} Pow128Grows(m: nat, n: nat)
    requires m <= n
    ensures Pow128(m) <= Pow128(n)
  {
    if m < n { Pow128Grows(m, n - 1); }
  }

  lemma OnesAreAccepted(s: Slice)
    requires End(s) == 9 < |s| && Ones(s) && s[9] == 1
    ensures Accepted(s)
  {
    hide Groups, Accepted, Collected;
    FirstFive(s);
    AcceptedLong(s);
  }

  // ------------------------------------------------------------------ integers of a field's width

  /** Integers of `width` bytes, encoded plainly, unsigned, or zigzag; or with a fixed number of bytes. */
  datatype Scalar = Int(width: nat) | UInt(width: nat) | SInt(width: nat) | Fixed32 | Fixed64

  predicate WidthOk(kind: Scalar)
  {
    (kind.Int? || kind.UInt? || kind.SInt?) ==> kind.width == 1 || kind.width == 2 || kind.width == 4 || kind.width == 8
  }

  function Limit(width: nat): (r: nat)
    requires width == 1 || width == 2 || width == 4 || width == 8
    ensures 256 <= r <= TWO_64
  {
    if width == 1 then 0x100 else if width == 2 then 0x1_0000 else if width == 4 then TWO_32 else TWO_64
  }

  predicate InRange(kind: Scalar, n: int)
    requires WidthOk(kind)
  {
    match kind
    case Int(w) => -(Limit(w) / 2) <= n < Limit(w) / 2
    case UInt(w) => 0 <= n < Limit(w)
    case SInt(w) => -(Limit(w) / 2) <= n < Limit(w) / 2
    case Fixed32 => 0 <= n < TWO_32
    case Fixed64 => 0 <= n < TWO_64
  }

  /** The cast to a signed field of that width. */
  function ToSigned(n: int, width: nat): int
    requires width == 1 || width == 2 || width == 4 || width == 8
  {
    var u := n % Limit(width);
    if u < Limit(width) / 2 then u else u - Limit(width)
  }

  function ScalarBytes(kind: Scalar, n: int): Slice
    requires WidthOk(kind) && InRange(kind, n)
  {
    match kind
    case Int(_) => VarintBytes(Unsigned(n))
    case UInt(_) => VarintBytes(n)
    case SInt(_) => ZigZagRoundTrip(n); VarintBytes(ZigZag(n))
    case Fixed32 => Fixed(n, 4)
    case Fixed64 => Fixed(n, 8)
  }

  /** The field decoders: values that do not fit the field are errors. */
  function ReadScalar(kind: Scalar, s: Slice): (r: Option<(int, Slice)>)
    requires WidthOk(kind)
    ensures r.Some? ==> |r.value.1| < |s|
  {
    match kind
    case Int(w) =>
      (match Varint(s, 10, TWO_64)
       case None => None
       case Some((u, rest)) =>
         var value := if w == 8 then Signed(u) else ToSigned(u, 4);
         if ToSigned(value, w) == value then Some((value, rest)) else None)
    case UInt(w) =>
      (match Varint(s, 10, TWO_64)
       case None => None
       case Some((u, rest)) => if u % Limit(w) == u then Some((u, rest)) else None)
    case SInt(w) =>
      (match Varint(s, 10, TWO_64)
       case None => None
       case Some((u, rest)) =>
         var value := UnZigZag(u % TWO_64);
         if ToSigned(value, w) == value then Some((value, rest)) else None)
    case Fixed32 => if |s| < 4 then None else Some((FixedValue(s[..4]), s[4..]))
    case Fixed64 => if |s| < 8 then None else Some((FixedValue(s[..8]), s[8..]))
  }

  lemma CastKeeps(n: int, width: nat)
    requires width == 1 || width == 2 || width == 4 || width == 8
    requires -(Limit(width) / 2) <= n < Limit(width) / 2
    ensures ToSigned(n, width) == n
  {
  }

  /** An int64 of small range survives its cast through int32. */
  lemma IntRoundTrip(n: int, width: nat, suffix: Slice)
    requires WidthOk(Int(width)) && InRange(Int(width), n)
    ensures ReadScalar(Int(width), ScalarBytes(Int(width), n) + suffix) == Some((n, suffix))
  {
    hide VarintBytes, Varint, Unsigned, Signed, Pow128, ToSigned, Limit;
    FiveAndTen();
    LimitBounds(width);
    UnsignedBack(n);
    VarintRoundTrip(Unsigned(n), suffix, 10, TWO_64);
    CastKeeps(n, width);
    if width != 8 { ThroughInt32(n, width); }
  }

  lemma UnsignedBack(n: int)
    requires MIN_INT64 <= n <= MAX_INT64
    ensures Unsigned(n) < TWO_64 && Signed(Unsigned(n)) == n
  {
    assert Unsigned(n) == if n < 0 then n + TWO_64 else n;
  }

  lemma ThroughInt32(n: int, width: nat)
    requires width == 1 || width == 2 || width == 4
    requires -(Limit(width) / 2) <= n < Limit(width) / 2
    ensures ToSigned(Unsigned(n), 4) == n
  {
    assert Unsigned(n) == if n < 0 then n + TWO_64 else n;
    assert Unsigned(n) % TWO_32 == n % TWO_32;
    CastKeeps(n, 4);
  }

  lemma UIntRoundTrip(n: int, width: nat, suffix: Slice)
    requires WidthOk(UInt(width)) && InRange(UInt(width), n)
    ensures ReadScalar(UInt(width), ScalarBytes(UInt(width), n) + suffix) == Some((n, suffix))
  {
    hide VarintBytes, Varint;
    FiveAndTen();
    VarintRoundTrip(n, suffix, 10, TWO_64);
  }

  lemma SIntRoundTrip(n: int, width: nat, suffix: Slice)
    requires WidthOk(SInt(width)) && InRange(SInt(width), n)
    ensures ReadScalar(SInt(width), ScalarBytes(SInt(width), n) + suffix) == Some((n, suffix))
  {
    hide VarintBytes, Varint, ZigZag, UnZigZag, Pow128, ToSigned, Limit;
    FiveAndTen();
    LimitBounds(width);
    ZigZagRoundTrip(n);
    var z: nat := ZigZag(n);
    WholeMod(z);
    VarintRoundTrip(z, suffix, 10, TWO_64);
    CastKeeps(n, width);
  }

  lemma LimitBounds(width: nat)
    requires width == 1 || width == 2 || width == 4 || width == 8
    ensures MIN_INT64 <= -(Limit(width) / 2) && Limit(width) / 2 - 1 <= MAX_INT64
  {
  }

  lemma WholeMod(u: nat)
    requires u < TWO_64
    ensures u % TWO_64 == u
  {
  }

  lemma FixedKindRoundTrip(kind: Scalar, n: int, suffix: Slice)
    requires (kind.Fixed32? || kind.Fixed64?) && InRange(kind, n)
    ensures ReadScalar(kind, ScalarBytes(kind, n) + suffix) == Some((n, suffix))
  {
    FixedPowers();
    hide Fixed, FixedValue, Pow256;
    var width := if kind.Fixed32? then 4 else 8;
    FixedRoundTrip(n, width);
    assert (Fixed(n, width) + suffix)[..width] == Fixed(n, width) && (Fixed(n, width) + suffix)[width..] == suffix;
  }

  /** Whatever fits the field is read back as it was. */
  lemma ScalarRoundTrip(kind: Scalar, n: int, suffix: Slice)
    requires WidthOk(kind) && InRange(kind, n)
    ensures ReadScalar(kind, ScalarBytes(kind, n) + suffix) == Some((n, suffix))
  {
    hide ReadScalar, ScalarBytes;
    match kind
    case Int(w) => IntRoundTrip(n, w, suffix);
    case UInt(w) => UIntRoundTrip(n, w, suffix);
    case SInt(w) => SIntRoundTrip(n, w, suffix);
    case _ => FixedKindRoundTrip(kind, n, suffix);
  }
}
