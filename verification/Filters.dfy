/** Bloom filters (util/bloom.cc) and the filter block of a table (table/filter_block.cc). */
module Filters {
  import opened Bytes
  import opened InternalKeys
  import opened Coding
  import opened BlockFormat
  import opened BlockIteration

  // ------------------------------------------------------------------ bits

  /** x & (1 << n) is not zero. */
  predicate HasBit(x: nat, n: nat)
  {
    if n == 0 then x % 2 == 1 else HasBit(x / 2, n - 1)
  }

  /** x | (1 << n) */
  function WithBit(x: nat, n: nat): nat
  {
    if n == 0 then x / 2 * 2 + 1 else WithBit(x / 2, n - 1) * 2 + x % 2
  }

  lemma {:induction false} WithBitIs(x: nat, n: nat, m: nat, width: nat)
    requires n < width && x < Pow2(width)
    ensures WithBit(x, n) < Pow2(width)
    ensures HasBit(WithBit(x, n), m) <==> m == n || HasBit(x, m)
  {
    if n > 0 {
      var y := WithBit(x / 2, n - 1);
      assert WithBit(x, n) / 2 == y;
      WithBitIs(x / 2, n - 1, if m == 0 then 0 else m - 1, width - 1);
    } else {
      assert WithBit(x, n) / 2 == x / 2;
    }
  }

  lemma ByteWithBit(x: byte, n: nat, m: nat)
    requires n < 8
    ensures WithBit(x as nat, n) < 256
    ensures HasBit(WithBit(x as nat, n), m) <==> m == n || HasBit(x as nat, m)
  {
    assert Pow2(4) == 16;
    assert Pow2(8) == 2 * (2 * (2 * (2 * Pow2(4))));
    WithBitIs(x as nat, n, m, 8);
  }

  predicate BitAt(bitmap: Slice, bit: nat)
    requires bit / 8 < |bitmap|
  {
    HasBit(bitmap[bit / 8] as nat, bit % 8)
  }

  // ------------------------------------------------------------------ the Bloom filter

  /** BloomHash: any hash will do. */
  type HashFunction = Slice -> nat

  function HashOf(hash: HashFunction, key: Slice): (h: nat)
    ensures h < TWO_32
  {
    hash(key) % TWO_32
  }

  /** Rotate right by 17 bits. */
  function Delta(h: nat): (d: nat)
    requires h < TWO_32
    ensures d < TWO_32
  {
    h / 0x2_0000 + h * 0x8000 % TWO_32
  }

  /** The j-th probe, by double hashing in 32-bit arithmetic. */
  function Probe(h: nat, delta: nat, j: nat): (p: nat)
    requires h < TWO_32
    ensures p < TWO_32
  {
    if j == 0 then h else (Probe(h, delta, j - 1) + delta) % TWO_32
  }

  /** The first `k` probes of `h` hit set bits. */
  predicate Hits(bitmap: Slice, h: nat, k: nat)
    requires h < TWO_32 && bitmap != []
  {
    forall j :: 0 <= j < k ==> BitAt(bitmap, Probe(h, Delta(h), j) % (8 * |bitmap|))
  }

  /** What KeyMayMatch answers. */
  predicate MayMatch(hash: HashFunction, key: Slice, filter: Slice)
  {
    var n := |filter| - 1;
    n >= 1 && (filter[n] > 30 || Hits(filter[..n], HashOf(hash, key), filter[n] as nat))
  }

  /** One probe after `j` that hit; a miss decides. */
  lemma OneMoreHit(bitmap: Slice, h: nat, j: nat, k: nat)
    requires h < TWO_32 && bitmap != []
    ensures Hits(bitmap, h, 0)
    ensures var bit := Probe(h, Delta(h), j) % (8 * |bitmap|);
            && bit / 8 < |bitmap|
            && (Hits(bitmap, h, j) && HasBit(bitmap[bit / 8] as nat, bit % 8) ==> Hits(bitmap, h, j + 1))
            && (j < k && !HasBit(bitmap[bit / 8] as nat, bit % 8) ==> !Hits(bitmap, h, k))
  {
    hide HasBit, Delta;
    assert BitAt(bitmap, Probe(h, Delta(h), j) % (8 * |bitmap|))
        == HasBit(bitmap[Probe(h, Delta(h), j) % (8 * |bitmap|) / 8] as nat, Probe(h, Delta(h), j) % (8 * |bitmap|) % 8);
  }

  method KeyMayMatch(hash: HashFunction, key: Slice, filter: Slice) returns (r: bool)
    ensures r <==> MayMatch(hash, key, filter)
  {
    hide HasBit, HashOf, Delta, Hits, BitAt;
    var len := |filter|;
    if len < 2 { return false; }
    var bitmap := filter[..len - 1];
    var bits := (len - 1) * 8;
    var k := filter[len - 1] as nat;
    if k > 30 { return true; }
    var h := HashOf(hash, key);
    ghost var h0 := h;
    var delta := Delta(h);
    OneMoreHit(bitmap, h, 0, k);
    for j := 0 to k
      invariant h == Probe(h0, delta, j)
      invariant Hits(bitmap, h0, j)
    {
      var bitpos := h % bits;
      OneMoreHit(bitmap, h0, j, k);
      if !HasBit(bitmap[bitpos / 8] as nat, bitpos % 8) {
        return false;
      }
      h := (h + delta) % TWO_32;
    }
    r := true;
  }

  /** Setting the bits of one key: all bits that were set stay set. */
  method SetBits(a: Slice, hash: HashFunction, key: Slice, k: nat) returns (r: Slice)
    requires a != []
    ensures |r| == |a| && Hits(r, HashOf(hash, key), k)
    ensures forall b :: 0 <= b / 8 < |a| && BitAt(a, b) ==> BitAt(r, b)
  {
    r := a;
    var h := HashOf(hash, key);
    ghost var h0 := h;
    var delta := Delta(h);
    for j := 0 to k
      invariant |r| == |a| && h == Probe(h0, delta, j) && Hits(r, h0, j)
      invariant forall b :: 0 <= b / 8 < |a| && BitAt(a, b) ==> BitAt(r, b)
    {
      var bitpos := h % (8 * |r|);
      ghost var before := r;
      r := SetBit(r, bitpos);
      h := (h + delta) % TWO_32;
    }
  }

  method SetBit(a: Slice, bit: nat) returns (r: Slice)
    requires bit / 8 < |a|
    ensures |r| == |a| && BitAt(r, bit)
    ensures forall b :: 0 <= b / 8 < |a| && BitAt(a, b) ==> BitAt(r, b)
  {
    var i := bit / 8;
    ByteWithBit(a[i], bit % 8, bit % 8);
    r := a[i := WithBit(a[i] as nat, bit % 8) as byte];
    forall b | 0 <= b / 8 < |a| && BitAt(a, b)
      ensures BitAt(r, b)
    {
      ByteWithBit(a[i], bit % 8, b % 8);
    }
  }

  /** Probes per key for a policy of `bitsPerKey`. */
  function Probes(bitsPerKey: nat): (k: nat)
    ensures 1 <= k <= 30
  {
    var k := bitsPerKey * 69 / 100;
    if k < 1 then 1 else if k > 30 then 30 else k
  }

  /** CreateFilter appends a filter that every one of its keys matches. */
  method CreateFilter(hash: HashFunction, keys: seq<Slice>, bitsPerKey: nat, dst: Slice) returns (r: Slice)
    ensures dst <= r
    ensures forall i :: 0 <= i < |keys| ==> MayMatch(hash, keys[i], r[|dst|..])
  {
    var k := Probes(bitsPerKey);
    var bits := |keys| * bitsPerKey;
    if bits < 64 { bits := 64; }
    var bytes := (bits + 7) / 8;
    var bitmap := seq(bytes, _ => 0);
    for i := 0 to |keys|
      invariant |bitmap| == bytes
      invariant forall j :: 0 <= j < i ==> Hits(bitmap, HashOf(hash, keys[j]), k)
    {
      var more := SetBits(bitmap, hash, keys[i], k);
      forall j | 0 <= j < i
        ensures Hits(more, HashOf(hash, keys[j]), k)
      {
        StillHits(bitmap, more, HashOf(hash, keys[j]), k);
      }
      bitmap := more;
    }
    r := dst + bitmap + [k as byte];
    assert r[|dst|..] == bitmap + [k as byte];
    assert r[|dst|..][..bytes] == bitmap;
  }

  lemma StillHits(a: Slice, b: Slice, h: nat, k: nat)
    requires h < TWO_32 && a != [] && |a| == |b| && Hits(a, h, k)
    requires forall bit :: 0 <= bit / 8 < |a| && BitAt(a, bit) ==> BitAt(b, bit)
    ensures Hits(b, h, k)
  {
  }

  // ------------------------------------------------------------------ the filter block

  const FILTER_BASE_LG: byte := 11
  const FILTER_BASE: nat := 2048

  /** Keys one after the other. */
  function Flattened(keys: seq<Slice>): Slice
  {
    if keys == [] then [] else Flattened(keys[..|keys| - 1]) + keys[|keys| - 1]
  }

  function Starts(keys: seq<Slice>): (r: seq<nat>)
    ensures |r| == |keys|
  {
    if keys == [] then [] else Starts(keys[..|keys| - 1]) + [|Flattened(keys[..|keys| - 1])|]
  }

  lemma {:induction false} StartsAt(keys: seq<Slice>, i: nat)
    requires i < |keys|
    ensures var end := if i + 1 < |keys| then Starts(keys)[i + 1] else |Flattened(keys)|;
            Starts(keys)[i] <= end <= |Flattened(keys)| && Flattened(keys)[Starts(keys)[i]..end] == keys[i]
  {
    var n := |keys| - 1;
    if i < n {
      StartsAt(keys[..n], i);
      var s := Starts(keys[..n])[i];
      var e := if i + 1 < n then Starts(keys[..n])[i + 1] else |Flattened(keys[..n])|;
      assert Flattened(keys)[s..e] == Flattened(keys[..n])[s..e];
    }
  }

  class FilterBlockBuilder {
    const hash: HashFunction
    const bitsPerKey: nat
    var flat: Slice
    var starts: seq<nat>
    var result: Slice
    var offsets: seq<nat>
    /** The keys not in a filter yet, and those of each filter. */
    ghost var pending: seq<Slice>
    ghost var filters: seq<seq<Slice>>

    ghost predicate Valid()
      reads this
    {
      && flat == Flattened(pending) && starts == Starts(pending)
      && |filters| == |offsets| && FiltersOk(hash, result, offsets, filters)
    }

    /** The keys of filter number `i`, in a filter or still to be put into one. */
    ghost function KeysAt(i: nat): seq<Slice>
      reads this
    {
      if i < |filters| then filters[i] else if i == |filters| then pending else []
    }

    constructor (hash: HashFunction, bitsPerKey: nat)
      ensures Valid() && offsets == [] && pending == [] && filters == [] && this.hash == hash
    {
      this.hash, this.bitsPerKey := hash, bitsPerKey;
      flat, starts, result, offsets, pending, filters := [], [], [], [], [], [];
    }

    method StartBlock(blockOffset: nat)
      requires Valid() && |offsets| <= blockOffset / FILTER_BASE
      modifies this
      ensures Valid() && |offsets| == blockOffset / FILTER_BASE
      ensures forall i :: KeysAt(i) == old(KeysAt(i))
    {
      var index := blockOffset / FILTER_BASE;
      while index > |offsets|
        invariant Valid() && |offsets| <= index
        invariant forall i :: KeysAt(i) == old(KeysAt(i))
      {
        GenerateFilter();
      }
    }

    method AddKey(key: Slice)
      requires Valid()
      modifies this
      ensures Valid() && offsets == old(offsets)
      ensures forall i :: KeysAt(i) == if i == |offsets| then old(KeysAt(i)) + [key] else old(KeysAt(i))
    {
      assert (pending + [key])[..|pending|] == pending;
      starts := starts + [|flat|];
      flat := flat + key;
      pending := pending + [key];
    }

    method GenerateFilter()
      requires Valid()
      modifies this
      ensures Valid() && |offsets| == |old(offsets)| + 1 && pending == []
      ensures forall i :: KeysAt(i) == old(KeysAt(i))
    {
      var numKeys := |starts|;
      ghost var before := result;
      if numKeys == 0 {
        NoKeys(hash, result, offsets, filters);
        offsets := offsets + [|result|];
      } else {
        var bounds := starts + [|flat|];
        var keys: seq<Slice> := [];
        for i := 0 to numKeys
          modifies {}
          invariant keys == pending[..i]
        {
          StartsAt(pending, i);
          keys := keys + [flat[bounds[i]..bounds[i + 1]]];
        }
        assert keys == pending;
        offsets := offsets + [|result|];
        result := CreateFilter(hash, keys, bitsPerKey, result);
        OneMoreFilter(hash, before, result, old(offsets), filters, pending);
      }
      filters := filters + [pending];
      flat, starts, pending := [], [], [];
    }

    method Finish() returns (contents: Slice)
      requires Valid()
      modifies this
      ensures Valid() && contents == FilterBlock(result, offsets)
      ensures forall i :: KeysAt(i) == old(KeysAt(i))
      ensures pending == []
    {
      if starts != [] {
        GenerateFilter();
      }
      contents := AppendOffsets();
    }

    /** The array of offsets goes behind the filters. */
    method AppendOffsets() returns (contents: Slice)
      ensures contents == FilterBlock(result, offsets)
    {
      hide Fixed;
      contents := result;
      for i := 0 to |offsets|
        invariant contents == result + FixedAll(offsets[..i])
      {
        assert offsets[..i + 1][..i] == offsets[..i];
        contents := contents + Fixed(offsets[i], 4);
      }
      assert offsets[..|offsets|] == offsets;
      contents := contents + Fixed(|result|, 4) + [FILTER_BASE_LG];
    }
  }

  /** Filters, their offsets, where the offsets start, and the base. */
  function FilterBlock(result: Slice, offsets: seq<nat>): Slice
  {
    result + FixedAll(offsets) + Fixed(|result|, 4) + [FILTER_BASE_LG]
  }

  /** Filter `i` is the part of `result` from offset `i` to the next. */
  function FilterEnd(result: Slice, offsets: seq<nat>, i: nat): nat
  {
    if i + 1 < |offsets| then offsets[i + 1] else |result|
  }

  ghost predicate FiltersOk(hash: HashFunction, result: Slice, offsets: seq<nat>, filters: seq<seq<Slice>>)
    requires |filters| == |offsets|
  {
    forall i :: 0 <= i < |offsets| ==> FilterOk(hash, result, offsets[i], FilterEnd(result, offsets, i), filters[i])
  }

  ghost predicate FilterOk(hash: HashFunction, result: Slice, start: nat, end: nat, keys: seq<Slice>)
  {
    start <= end <= |result| && forall key :: key in keys ==> MayMatch(hash, key, result[start..end])
  }

  lemma NoKeys(hash: HashFunction, result: Slice, offsets: seq<nat>, filters: seq<seq<Slice>>)
    requires |filters| == |offsets| && FiltersOk(hash, result, offsets, filters)
    ensures FiltersOk(hash, result, offsets + [|result|], filters + [[]])
  {
    hide MayMatch;
    forall i | 0 <= i < |offsets|
      ensures FilterOk(hash, result, offsets[i], FilterEnd(result, offsets + [|result|], i), filters[i])
    {
      assert FilterOk(hash, result, offsets[i], FilterEnd(result, offsets, i), filters[i]);
    }
  }

  lemma OneMoreFilter(hash: HashFunction, before: Slice, result: Slice, offsets: seq<nat>, filters: seq<seq<Slice>>, keys: seq<Slice>)
    requires |filters| == |offsets| && FiltersOk(hash, before, offsets, filters) && before <= result
    requires forall i :: 0 <= i < |keys| ==> MayMatch(hash, keys[i], result[|before|..])
    ensures FiltersOk(hash, result, offsets + [|before|], filters + [keys])
  {
    hide MayMatch;
    var more := offsets + [|before|];
    forall i | 0 <= i < |more|
      ensures FilterOk(hash, result, more[i], FilterEnd(result, more, i), (filters + [keys])[i])
    {
      if i < |offsets| {
        assert FilterOk(hash, before, offsets[i], FilterEnd(before, offsets, i), filters[i]);
        var start, end := offsets[i], FilterEnd(before, offsets, i);
        assert result[start..end] == before[start..end];
      } else {
        assert result[|before|..|result|] == result[|before|..];
      }
    }
  }

  // ------------------------------------------------------------------ FilterBlockReader

  /** Reading a filter block: errors count as potential matches. */
  method BlockMayMatch(hash: HashFunction, contents: Slice, blockOffset: nat, key: Slice) returns (r: bool)
    ensures r <==> FilterSays(hash, contents, blockOffset, key)
  {
    hide FixedValue, MayMatch, ShiftRight;
    var n := |contents|;
    if n < 5 { return true; }
    var baseLg := contents[n - 1] as nat;
    var lastWord := FixedValue(contents[n - 5..n - 1]);
    if lastWord > n - 5 { return true; }
    var num := (n - 5 - lastWord) / 4;
    var index := ShiftRight(blockOffset, baseLg);
    if index < num {
      var at := lastWord + index * 4;
      var start := FixedValue(contents[at..at + 4]);
      var limit := FixedValue(contents[at + 4..at + 8]);
      if start <= limit && limit <= lastWord {
        r := KeyMayMatch(hash, key, contents[start..limit]);
        return;
      } else if start == limit {
        return false;
      }
    }
    r := true;
  }

  /** FilterBlockReader's offset_ - data_ and num_. */
  function OffsetsStart(contents: Slice): nat
    requires |contents| >= 5
  {
    FixedValue(contents[|contents| - 5..|contents| - 1])
  }

  function NumFilters(contents: Slice): (n: nat)
    requires |contents| >= 5 && OffsetsStart(contents) <= |contents| - 5
    ensures OffsetsStart(contents) + 4 * n <= |contents| - 5
  {
    (|contents| - 5 - OffsetsStart(contents)) / 4
  }

  function FilterIndex(contents: Slice, blockOffset: nat): nat
    requires |contents| >= 5
  {
    ShiftRight(blockOffset, contents[|contents| - 1] as nat)
  }

  /** What the offset array says of filter `index`. */
  predicate FilterAtSays(hash: HashFunction, contents: Slice, lastWord: nat, index: nat, key: Slice)
    requires lastWord + 4 * index + 8 <= |contents|
  {
    var at := lastWord + index * 4;
    var start, limit := FixedValue(contents[at..at + 4]), FixedValue(contents[at + 4..at + 8]);
    if start <= limit <= lastWord then MayMatch(hash, key, contents[start..limit]) else start != limit
  }

  predicate FilterSays(hash: HashFunction, contents: Slice, blockOffset: nat, key: Slice)
  {
    || |contents| < 5 || OffsetsStart(contents) > |contents| - 5
    || FilterIndex(contents, blockOffset) >= NumFilters(contents)
    || FilterAtSays(hash, contents, OffsetsStart(contents), FilterIndex(contents, blockOffset), key)
  }

  /** A filter block never rejects a key that was added while a block with this offset was written. */
  lemma NoFalseNegatives(hash: HashFunction, result: Slice, offsets: seq<nat>, filters: seq<seq<Slice>>, blockOffset: nat, key: Slice)
    requires |filters| == |offsets| && FiltersOk(hash, result, offsets, filters)
    requires |FilterBlock(result, offsets)| < TWO_32
    requires blockOffset / FILTER_BASE < |offsets| && key in filters[blockOffset / FILTER_BASE]
    ensures FilterSays(hash, FilterBlock(result, offsets), blockOffset, key)
  {
    hide MayMatch, Fixed, FixedValue, FixedAll;
    var contents, n := FilterBlock(result, offsets), |FilterBlock(result, offsets)|;
    var i := blockOffset / FILTER_BASE;
    var words := offsets + [|result|];
    assert FilterOk(hash, result, offsets[i], FilterEnd(result, offsets, i), filters[i]);
    WordsAt(hash, result, offsets, filters, i);
    ShiftEleven(blockOffset);
    var start, end := offsets[i], FilterEnd(result, offsets, i);
    assert contents[start..end] == result[start..end];
  }

  lemma ShiftOne(x: nat, n: nat)
    ensures ShiftRight(x, 0) == x && ShiftRight(x, n + 1) == ShiftRight(x / 2, n)
  {
  }

  lemma ShiftFour(x: nat, n: nat)
    ensures ShiftRight(x, n + 4) == ShiftRight(x / 16, n)
  {
    hide ShiftRight;
    ShiftOne(x, n + 3);
    ShiftOne(x / 2, n + 2);
    ShiftOne(x / 4, n + 1);
    ShiftOne(x / 8, n);
  }

  lemma ShiftEleven(x: nat)
    ensures ShiftRight(x, 11) == x / FILTER_BASE
  {
    hide ShiftRight;
    var y := x / 256;
    ShiftFour(x, 7);
    ShiftFour(x / 16, 3);
    ShiftOne(y, 2);
    ShiftOne(y / 2, 1);
    ShiftOne(y / 4, 0);
    ShiftOne(y / 8, 0);
  }

  /** The words of the offset array, with the array's own offset as the last one. */
  lemma WordsAt(hash: HashFunction, result: Slice, offsets: seq<nat>, filters: seq<seq<Slice>>, i: nat)
    requires |filters| == |offsets| && FiltersOk(hash, result, offsets, filters) && i < |offsets|
    requires |FilterBlock(result, offsets)| < TWO_32
    ensures var contents, n := FilterBlock(result, offsets), |FilterBlock(result, offsets)|;
            && n == |result| + 4 * |offsets| + 5 && contents[n - 1] == FILTER_BASE_LG
            && FixedValue(contents[n - 5..n - 1]) == |result|
            && FixedValue(contents[|result| + i * 4..|result| + i * 4 + 4]) == offsets[i]
            && FixedValue(contents[|result| + i * 4 + 4..|result| + i * 4 + 8]) == FilterEnd(result, offsets, i)
  {
    hide MayMatch, Fixed, FixedValue, FixedAll;
    var contents, n := FilterBlock(result, offsets), |FilterBlock(result, offsets)|;
    assert forall j :: 0 <= j < |offsets| ==> FilterOk(hash, result, offsets[j], FilterEnd(result, offsets, j), filters[j]);
    FixedPowers();
    assert contents[n - 5..n - 1] == Fixed(|result|, 4);
    FixedRoundTrip(|result|, 4);
    WordAt(result, offsets, i);
    if i + 1 < |offsets| {
      WordAt(result, offsets, i + 1);
    } else {
      assert contents[|result| + i * 4 + 4..|result| + i * 4 + 8] == contents[n - 5..n - 1];
    }
  }

  lemma WordAt(result: Slice, offsets: seq<nat>, i: nat)
    requires i < |offsets| && offsets[i] < TWO_32
    ensures FixedValue(FilterBlock(result, offsets)[|result| + i * 4..|result| + i * 4 + 4]) == offsets[i]
  {
    hide Fixed, FixedValue, FixedAll;
    FixedAllAt(offsets, i);
    FixedPowers();
    FixedRoundTrip(offsets[i], 4);
    assert FilterBlock(result, offsets)[|result| + i * 4..|result| + i * 4 + 4] == FixedAll(offsets)[4 * i..4 * i + 4];
  }
}
