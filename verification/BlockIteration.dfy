/** Block::Iter: a cursor over the entries of a block, in either direction and by search (table/block.cc). */
module BlockIteration {
  import opened Bytes
  import opened InternalKeys
  import opened Coding
  import opened BlockFormat

  // ------------------------------------------------------------------ decoding one entry

  datatype Header = Header(shared: nat, nonShared: nat, valueLength: nat, rest: Slice)

  /** The three lengths of an entry and what follows them; None if the input is too short for them. */
  function Decoded(s: Slice): Option<Header>
  {
    match Varint(s, 5, TWO_32)
    case None => None
    case Some((shared, s1)) =>
      match Varint(s1, 5, TWO_32)
      case None => None
      case Some((nonShared, s2)) =>
        match Varint(s2, 5, TWO_32)
        case None => None
        case Some((valueLength, s3)) =>
          if |s3| < (nonShared + valueLength) % TWO_32 then None else Some(Header(shared, nonShared, valueLength, s3))
  }

  method DecodeEntry(s: Slice) returns (h: Option<Header>)
    ensures h == Decoded(s)
  {
    if |s| < 3 {
      TooShort(s);
      return None;
    }
    var shared, nonShared, valueLength, rest := s[0] as nat, s[1] as nat, s[2] as nat, s[3..];
    if s[0] < 128 && s[1] < 128 && s[2] < 128 {
      OneByte(s);
      OneByte(s[1..]);
      OneByte(s[2..]);
      assert s[1..][1..] == s[2..] && s[2..][1..] == s[3..];
    } else {
      var a := GetVarint32(s);
      if a.None? { return None; }
      var b := GetVarint32(a.value.1);
      if b.None? { return None; }
      var c := GetVarint32(b.value.1);
      if c.None? { return None; }
      shared, nonShared, valueLength, rest := a.value.0, b.value.0, c.value.0, c.value.1;
    }
    if |rest| < (nonShared + valueLength) % TWO_32 { return None; }
    h := Some(Header(shared, nonShared, valueLength, rest));
  }

  lemma OneByte(s: Slice)
    requires s != [] && s[0] < 128
    ensures Varint(s, 5, TWO_32) == Some((s[0] as nat, s[1..]))
  {
    EndIs(s, 0);
    assert s[..1] == [s[0]] && s[..1][1..] == [];
    assert Groups(s[..1]) == s[0] as nat;
  }

  lemma TooShort(s: Slice)
    requires |s| < 3
    ensures Decoded(s) == None
  {
  }

  /** Decoding an entry the builder wrote. */
  lemma DecodesEntry(shared: nat, p: Pair, suffix: Slice)
    requires shared <= |p.key| < TWO_32 && |p.key| - shared + |p.value| < TWO_32
    ensures Decoded(EntryBytes(shared, p) + suffix) ==
            Some(Header(shared, |p.key| - shared, |p.value|, p.key[shared..] + p.value + suffix))
  {
    hide VarintBytes, Varint;
    FiveAndTen();
    var tail := p.key[shared..] + p.value + suffix;
    var a, b, c := VarintBytes(shared), VarintBytes(|p.key| - shared), VarintBytes(|p.value|);
    assert EntryBytes(shared, p) + suffix == a + (b + (c + tail));
    VarintRoundTrip(shared, b + (c + tail), 5, TWO_32);
    VarintRoundTrip(|p.key| - shared, c + tail, 5, TWO_32);
    VarintRoundTrip(|p.value|, tail, 5, TWO_32);
  }

  // ------------------------------------------------------------------ the restart array

  lemma {:induction false} FixedAllAt(points: seq<nat>, j: nat)
    requires j < |points|
    ensures FixedAll(points)[4 * j..4 * j + 4] == Fixed(points[j], 4)
  {
    var n := |points| - 1;
    if j < n {
      FixedAllAt(points[..n], j);
      assert FixedAll(points)[4 * j..4 * j + 4] == FixedAll(points[..n])[4 * j..4 * j + 4];
    }
  }

  lemma FixedInBlock(data: Slice, points: seq<nat>)
    requires |BlockBytes(data, points)| < TWO_32
    requires forall j :: 0 <= j < |points| ==> points[j] < TWO_32
    ensures forall j :: 0 <= j < |points| ==>
              FixedValue(BlockBytes(data, points)[|data| + 4 * j..|data| + 4 * j + 4]) == points[j]
    ensures FixedValue(BlockBytes(data, points)[|BlockBytes(data, points)| - 4..]) == |points|
  {
    hide FixedAll, Fixed, FixedValue;
    var block := BlockBytes(data, points);
    assert Pow256(4) == TWO_32;
    assert block[|block| - 4..] == Fixed(|points|, 4);
    FixedRoundTrip(|points|, 4);
    forall j | 0 <= j < |points|
      ensures FixedValue(block[|data| + 4 * j..|data| + 4 * j + 4]) == points[j]
    {
      FixedAllAt(points, j);
      assert block[|data| + 4 * j..|data| + 4 * j + 4] == FixedAll(points)[4 * j..4 * j + 4];
      FixedRoundTrip(points[j], 4);
    }
  }

  /** The Block constructor: where the restart array starts and how many entries it has. */
  method Open(block: Slice) returns (r: Option<(nat, nat)>)
    ensures forall data, points :: block == BlockBytes(data, points) && |block| < TWO_32 && (forall j :: 0 <= j < |points| ==> points[j] < TWO_32) ==>
              r == Some((|data|, |points|))
  {
    forall data, points | block == BlockBytes(data, points) && |block| < TWO_32 && (forall j :: 0 <= j < |points| ==> points[j] < TWO_32)
      ensures FixedValue(block[|block| - 4..]) == |points|
    {
      FixedInBlock(data, points);
    }
    if |block| < 4 { return None; }
    var num := FixedValue(block[|block| - 4..]);
    var most := (|block| - 4) / 4;
    if num > most { return None; }
    r := Some((|block| - (1 + num) * 4, num));
  }

  // ------------------------------------------------------------------ Block::Iter

  /** A comparator of keys. */
  type Order = (Slice, Slice) -> bool

  ghost predicate Transitive(less: Order)
  {
    forall a, b, c :: less(a, b) && less(b, c) ==> less(a, c)
  }

  ghost predicate InKeyOrder(less: Order, pairs: seq<Pair>)
  {
    forall i, j :: 0 <= i < j < |pairs| ==> less(pairs[i].key, pairs[j].key)
  }

  predicate Agree(a: Slice, b: Slice, n: nat)
  {
    n <= |a| && n <= |b| && a[..n] == b[..n]
  }

  class Iter {
    const less: Order
    const data: Slice
    const restarts: nat
    const numRestarts: nat
    var current: nat
    var restartIndex: nat
    var key: Slice
    var valueAt: nat
    var valueSize: nat
    ghost const layout: Layout
    ghost var index: nat

    /** The block is one the builder wrote. */
    ghost predicate Built()
    {
      && restarts <= |data| && |data| < TWO_32
      && Laid(data[..restarts], layout) && numRestarts == |layout.restarts|
      && data == BlockBytes(data[..restarts], Points(layout))
    }

    function NextEntryOffset(): nat
      reads this
    {
      valueAt + valueSize
    }

    /** The next entry to parse is entry `k`. */
    ghost predicate Ready(k: nat)
      requires Built()
      reads this
    {
      && k <= |layout.pairs| && NextEntryOffset() == layout.offsets[k]
      && restartIndex < numRestarts && Points(layout)[restartIndex] <= layout.offsets[k]
      && (k < |layout.pairs| ==> Agree(key, layout.pairs[k].key, layout.shared[k]))
    }

    /** The iterator stands on entry `index`, or on none if that is past the end. */
    ghost predicate Valid()
      reads this
    {
      && Built() && index <= |layout.pairs|
      && (if index == |layout.pairs| then current == restarts else
            && current == layout.offsets[index] && key == layout.pairs[index].key
            && valueAt + valueSize == layout.offsets[index + 1] && valueSize == |layout.pairs[index].value|
            && restartIndex < numRestarts && Points(layout)[restartIndex] <= current)
    }

    constructor (less: Order, data: Slice, restarts: nat, numRestarts: nat, ghost layout: Layout)
      requires restarts <= |data| && |data| < TWO_32
      requires Laid(data[..restarts], layout) && numRestarts == |layout.restarts|
      requires data == BlockBytes(data[..restarts], Points(layout))
      ensures Valid() && index == |layout.pairs| && this.layout == layout && this.less == less
    {
      this.less, this.data, this.restarts, this.numRestarts, this.layout := less, data, restarts, numRestarts, layout;
      current, restartIndex, key, valueAt, valueSize, index := restarts, numRestarts, [], 0, 0, |layout.pairs|;
    }

    function GetRestartPoint(i: nat): (point: nat)
      requires Built() && i < numRestarts
      ensures point == Points(layout)[i]
    {
      PointsAreSmall();
      FixedInBlock(data[..restarts], Points(layout));
      FixedValue(data[restarts + 4 * i..restarts + 4 * i + 4])
    }

    lemma PointsAreSmall()
      requires Built()
      ensures forall j :: 0 <= j < numRestarts ==> Points(layout)[j] <= restarts
    {
    }

    /** An entry, decoded where it stands. */
    lemma EntryHere(k: nat)
      requires Built() && k < |layout.pairs|
      ensures layout.shared[k] <= |layout.pairs[k].key|
      ensures layout.offsets[k] < layout.offsets[k + 1] <= restarts
      ensures |layout.pairs[k].key| - layout.shared[k] + |layout.pairs[k].value| <= layout.offsets[k + 1]
      ensures Decoded(data[layout.offsets[k]..restarts]) ==
              var p, s := layout.pairs[k], layout.shared[k];
              Some(Header(s, |p.key| - s, |p.value|, p.key[s..] + p.value + data[layout.offsets[k + 1]..restarts]))
    {
      hide EntryBytes, Decoded, BlockBytes, RestartsOk;
      var d := data[..restarts];
      var a, b := layout.offsets[k], layout.offsets[k + 1];
      var p, s := layout.pairs[k], layout.shared[k];
      assert EntryAt(d, layout, k);
      assert d[a..b] == EntryBytes(s, p);
      assert data[a..restarts] == d[a..b] + data[b..restarts];
      EntrySize(s, p);
      DecodesEntry(s, p, data[b..restarts]);
    }

    method SeekToRestartPoint(i: nat)
      requires Built() && i < numRestarts
      modifies this
      ensures Ready(layout.restarts[i]) && restartIndex == i
    {
      key := [];
      restartIndex := i;
      valueAt, valueSize := GetRestartPoint(i), 0;
    }

    lemma ValidIsReady()
      requires Valid() && index < |layout.pairs|
      ensures Ready(index + 1)
    {
      if index + 1 < |layout.pairs| {
        assert EntryAt(data[..restarts], layout, index + 1);
      }
    }

    method ParseNextKey(ghost k: nat) returns (ok: bool)
      requires Built() && Ready(k)
      modifies this
      ensures Valid() && index == k && ok == (k < |layout.pairs|)
      ensures ok ==> Ready(k + 1)
    {
      hide EntryBytes, Decoded, BlockBytes;
      current := NextEntryOffset();
      if current >= restarts {
        current, restartIndex, index := restarts, numRestarts, k;
        return false;
      }
      EntryHere(k);
      var h := DecodeEntry(data[current..restarts]);
      if h.None? || |key| < h.value.shared {
        // A malformed entry.
        assert false;
      }
      key := key[..h.value.shared] + h.value.rest[..h.value.nonShared];
      valueAt, valueSize := restarts - |h.value.rest| + h.value.nonShared, h.value.valueLength;
      assert key == layout.pairs[k].key by {
        assert h.value.rest[..h.value.nonShared] == layout.pairs[k].key[layout.shared[k]..];
      }
      AdvanceRestart();
      index := k;
      ok := true;
      ValidIsReady();
    }

    /** restart_index_ follows current_. */
    method AdvanceRestart()
      requires Built() && restartIndex < numRestarts && Points(layout)[restartIndex] <= current
      modifies this`restartIndex
      ensures restartIndex < numRestarts && Points(layout)[restartIndex] <= current
    {
      while restartIndex + 1 < numRestarts && GetRestartPoint(restartIndex + 1) < current
        invariant restartIndex < numRestarts && Points(layout)[restartIndex] <= current
        decreases numRestarts - restartIndex
      {
        restartIndex := restartIndex + 1;
      }
    }

    method Key() returns (r: Slice)
      requires Valid() && index < |layout.pairs|
      ensures r == layout.pairs[index].key
    {
      r := key;
    }

    method Value() returns (r: Slice)
      requires Valid() && index < |layout.pairs|
      ensures r == layout.pairs[index].value
    {
      hide Decoded, EntryBytes, BlockBytes, Laid;
      EntryHere(index);
      ValueHere(index);
      r := data[valueAt..valueAt + valueSize];
    }

    /** The value is the end of its entry. */
    lemma ValueHere(k: nat)
      requires Built() && k < |layout.pairs|
      ensures var b, v := layout.offsets[k + 1], layout.pairs[k].value;
              |v| <= b <= restarts && data[b - |v|..b] == v
    {
      hide EntryBytes, BlockBytes, RestartsOk;
      var d := data[..restarts];
      var a, b := layout.offsets[k], layout.offsets[k + 1];
      var p, s := layout.pairs[k], layout.shared[k];
      assert EntryAt(d, layout, k);
      EntryEnd(s, p);
      assert d[a..b][b - a - |p.value|..] == data[b - |p.value|..b];
    }

    method Next()
      requires Valid() && index < |layout.pairs|
      modifies this
      ensures Valid() && index == old(index) + 1
    {
      ValidIsReady();
      var _ := ParseNextKey(index + 1);
    }

    method Prev()
      requires Valid() && index < |layout.pairs|
      modifies this
      ensures Valid() && index == if old(index) == 0 then |layout.pairs| else old(index) - 1
    {
      ghost var i := index;
      var original := current;
      while GetRestartPoint(restartIndex) >= original
        invariant restartIndex < numRestarts
        decreases restartIndex
      {
        if restartIndex == 0 {
          current, restartIndex, index := restarts, numRestarts, |layout.pairs|;
          return;
        }
        restartIndex := restartIndex - 1;
      }
      SeekToRestartPoint(restartIndex);
      ghost var k := layout.restarts[restartIndex];
      OffsetOrder(k, i);
      while true
        invariant Built() && k < i && Ready(k)
        decreases i - k
      {
        var ok := ParseNextKey(k);
        if !ok || NextEntryOffset() >= original { break; }
        k := k + 1;
        OffsetOrder(k, i);
      }
      OffsetOrder(k + 1, i);
    }

    lemma OffsetOrder(a: nat, b: nat)
      requires Built() && a < |layout.offsets| && b < |layout.offsets|
      ensures a < b <==> layout.offsets[a] < layout.offsets[b]
    {
    }

    method SeekToFirst()
      requires Valid()
      modifies this
      ensures Valid() && index == 0
    {
      SeekToRestartPoint(0);
      var _ := ParseNextKey(0);
    }

    method SeekToLast()
      requires Valid()
      modifies this
      ensures Valid() && index == if layout.pairs == [] then 0 else |layout.pairs| - 1
    {
      SeekToRestartPoint(numRestarts - 1);
      ghost var k := layout.restarts[numRestarts - 1];
      while true
        invariant Built() && Ready(k) && (k < |layout.pairs| || k == 0)
        decreases |layout.pairs| - k
      {
        var ok := ParseNextKey(k);
        if !ok || NextEntryOffset() >= restarts { break; }
        k := k + 1;
      }
    }

    /** The first entry at or after `target`. */
    method Seek(target: Slice)
      requires Valid() && Transitive(less) && InKeyOrder(less, layout.pairs)
      modifies this
      ensures Valid()
      ensures forall i :: 0 <= i < index ==> less(layout.pairs[i].key, target)
      ensures forall i :: index <= i < |layout.pairs| ==> !less(layout.pairs[i].key, target)
    {
      hide EntryAt, BlockBytes, Points;
      var left := BinarySearch(target);
      SeekToRestartPoint(left);
      ghost var k := layout.restarts[left];
      while true
        invariant Built() && Ready(k)
        invariant forall i :: 0 <= i < k ==> less(layout.pairs[i].key, target)
        decreases |layout.pairs| - k
      {
        var ok := ParseNextKey(k);
        if !ok { return; }
        if !less(key, target) { break; }
        k := k + 1;
      }
      forall i | k <= i < |layout.pairs|
        ensures !less(layout.pairs[i].key, target)
      {
        assert k < i ==> less(layout.pairs[k].key, layout.pairs[i].key);
      }
    }

    /** The whole key stored at a restart point. */
    method RestartKey(i: nat) returns (r: Slice)
      requires Built() && 0 < i < numRestarts
      ensures r == layout.pairs[layout.restarts[i]].key
    {
      hide EntryBytes, Decoded, BlockBytes;
      ghost var k := layout.restarts[i];
      EntryHere(k);
      var h := DecodeEntry(data[GetRestartPoint(i)..restarts]);
      if h.None? || h.value.shared != 0 {
        // A malformed entry.
        assert false;
      }
      r := h.value.rest[..h.value.nonShared];
    }

    /** The last restart point with a key before `target`, or the first one. */
    method BinarySearch(target: Slice) returns (left: nat)
      requires Built() && Transitive(less) && InKeyOrder(less, layout.pairs)
      ensures left < numRestarts && forall i :: 0 <= i < layout.restarts[left] ==> less(layout.pairs[i].key, target)
      ensures forall j :: left < j < numRestarts ==> !less(layout.pairs[layout.restarts[j]].key, target)
    {
      hide EntryAt, BlockBytes, Points;
      left := 0;
      var right := numRestarts - 1;
      while left < right
        invariant left <= right < numRestarts
        invariant left > 0 ==> less(layout.pairs[layout.restarts[left]].key, target)
        invariant forall j :: right < j < numRestarts ==> !less(layout.pairs[layout.restarts[j]].key, target)
      {
        var mid := (left + right + 1) / 2;
        ghost var k := layout.restarts[mid];
        var midKey := RestartKey(mid);
        if less(midKey, target) {
          left := mid;
        } else {
          forall j | mid < j < numRestarts
            ensures !less(layout.pairs[layout.restarts[j]].key, target)
          {
            assert less(layout.pairs[k].key, layout.pairs[layout.restarts[j]].key);
          }
          right := mid - 1;
        }
      }
      if left > 0 {
        forall i | 0 <= i < layout.restarts[left]
          ensures less(layout.pairs[i].key, target)
        {
          assert less(layout.pairs[i].key, layout.pairs[layout.restarts[left]].key);
        }
      }
    }
  }

  /** Block::NewIterator, for a block the builder finished. */
  method NewIterator(less: Order, block: Slice, ghost data: Slice, ghost layout: Layout) returns (it: Iter)
    requires Laid(data, layout) && block == BlockBytes(data, Points(layout)) && |block| < TWO_32
    ensures fresh(it) && it.Valid() && it.layout == layout && it.less == less && it.index == |layout.pairs|
  {
    hide EntryAt, BlockBytes;
    var bounds := Open(block);
    assert forall j :: 0 <= j < |Points(layout)| ==> Points(layout)[j] < TWO_32 by {
      assert |block| == |data| + 4 * |Points(layout)| + 4;
    }
    assert bounds == Some((|data|, |Points(layout)|));
    assert block[..|data|] == data by { DataFirst(data, Points(layout)); }
    it := new Iter(less, block, bounds.value.0, bounds.value.1, layout);
  }

  lemma DataFirst(data: Slice, points: seq<nat>)
    ensures BlockBytes(data, points)[..|data|] == data
  {
  }

  lemma EntryEnd(shared: nat, p: Pair)
    requires shared <= |p.key|
    ensures var e := EntryBytes(shared, p); |p.value| <= |e| && e[|e| - |p.value|..] == p.value
  {
  }

  lemma EntrySize(shared: nat, p: Pair)
    requires shared <= |p.key|
    ensures |EntryBytes(shared, p)| >= 3 + |p.key| - shared + |p.value|
  {
  }
}
