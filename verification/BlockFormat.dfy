/** Prefix-compressed blocks (table/block_builder.cc, table/format of table/block.cc). */
module BlockFormat {
  import opened Bytes
  import opened InternalKeys
  import opened Coding

  datatype Pair = Pair(key: Slice, value: Slice)

  /** An entry: how much of the previous key it shares, then the rest of the key and the value. */
  function EntryBytes(shared: nat, p: Pair): (r: Slice)
    requires shared <= |p.key|
    ensures |r| >= 3
  {
    VarintBytes(shared) + VarintBytes(|p.key| - shared) + VarintBytes(|p.value|) + p.key[shared..] + p.value
  }

  /** The restart array: four bytes for each restart point. */
  function FixedAll(points: seq<nat>): (r: Slice)
    ensures |r| == 4 * |points|
  {
    if points == [] then [] else FixedAll(points[..|points| - 1]) + Fixed(points[|points| - 1], 4)
  }

  lemma OneMorePoint(points: seq<nat>, i: nat)
    requires i < |points|
    ensures FixedAll(points[..i + 1]) == FixedAll(points[..i]) + Fixed(points[i], 4)
  {
    assert points[..i + 1][..i] == points[..i];
  }

  function BlockBytes(data: Slice, points: seq<nat>): (r: Slice)
    ensures |r| == |data| + 4 * |points| + 4
  {
    data + FixedAll(points) + Fixed(|points|, 4)
  }

  /** Where the entries of a block are, what they share, and which of them are restart points. */
  datatype Layout = Layout(pairs: seq<Pair>, shared: seq<nat>, offsets: seq<nat>, restarts: seq<nat>)

  ghost predicate Shares(pairs: seq<Pair>, i: nat, shared: nat)
    requires i < |pairs|
  {
    && shared <= |pairs[i].key| < TWO_32
    && (shared > 0 ==> i > 0 && shared <= |pairs[i - 1].key| && pairs[i - 1].key[..shared] == pairs[i].key[..shared])
  }

  ghost predicate OffsetsOk(data: Slice, l: Layout)
  {
    && |l.shared| == |l.pairs| && |l.offsets| == |l.pairs| + 1
    && l.offsets[0] == 0 && l.offsets[|l.pairs|] == |data|
    && (forall i, j :: 0 <= i < j < |l.offsets| ==> l.offsets[i] < l.offsets[j])
  }

  ghost predicate EntryAt(data: Slice, l: Layout, i: nat)
    requires OffsetsOk(data, l) && i < |l.pairs|
  {
    && Shares(l.pairs, i, l.shared[i])
    && l.offsets[i + 1] <= |data|
    && data[l.offsets[i]..l.offsets[i + 1]] == EntryBytes(l.shared[i], l.pairs[i])
  }

  ghost predicate RestartsOk(l: Layout)
    requires |l.shared| == |l.pairs|
  {
    && l.restarts != [] && l.restarts[0] == 0
    && (forall j :: 0 <= j < |l.restarts| ==> l.restarts[j] < |l.pairs| || j == 0)
    && (forall j :: 0 <= j < |l.restarts| && l.restarts[j] < |l.pairs| ==> l.shared[l.restarts[j]] == 0)
    && (forall i, j :: 0 <= i < j < |l.restarts| ==> l.restarts[i] < l.restarts[j])
  }

  /** `data` holds the entries of `l`. */
  ghost predicate Laid(data: Slice, l: Layout)
  {
    OffsetsOk(data, l) && RestartsOk(l) && forall i :: 0 <= i < |l.pairs| ==> EntryAt(data, l, i)
  }

  function Points(l: Layout): (r: seq<nat>)
    requires forall j :: 0 <= j < |l.restarts| ==> l.restarts[j] < |l.offsets|
    ensures |r| == |l.restarts| && forall j :: 0 <= j < |r| ==> r[j] == l.offsets[l.restarts[j]]
  {
    seq(|l.restarts|, j requires 0 <= j < |l.restarts| => l.offsets[l.restarts[j]])
  }

  /** The layout of an empty block. */
  function Empty(): Layout { Layout([], [], [0], [0]) }

  /** One more entry at the end of `data`. */
  function Extended(data: Slice, l: Layout, p: Pair, shared: nat, restart: bool): Layout
    requires shared <= |p.key|
  {
    Layout(l.pairs + [p], l.shared + [shared], l.offsets + [|data| + |EntryBytes(shared, p)|],
           if restart then l.restarts + [|l.pairs|] else l.restarts)
  }

  lemma ExtendedIsLaid(data: Slice, l: Layout, p: Pair, shared: nat, restart: bool)
    requires Laid(data, l) && shared <= |p.key| < TWO_32
    requires shared > 0 ==> l.pairs != [] && shared <= |l.pairs[|l.pairs| - 1].key| && l.pairs[|l.pairs| - 1].key[..shared] == p.key[..shared]
    requires restart ==> shared == 0 && l.pairs != []
    requires !restart && l.pairs == [] ==> shared == 0
    ensures Laid(data + EntryBytes(shared, p), Extended(data, l, p, shared, restart))
  {
    hide EntryBytes;
    var e := EntryBytes(shared, p);
    var d, m := data + e, Extended(data, l, p, shared, restart);
    var n := |l.pairs|;
    forall i | 0 <= i < |m.pairs|
      ensures EntryAt(d, m, i)
    {
      if i < n {
        assert EntryAt(data, l, i);
        assert d[l.offsets[i]..l.offsets[i + 1]] == data[l.offsets[i]..l.offsets[i + 1]];
      } else {
        assert d[|data|..] == e;
      }
    }
  }

  /** A restart point every `interval` entries. */
  ghost predicate Spaced(restarts: seq<nat>, interval: nat)
  {
    forall j :: 0 <= j < |restarts| - 1 ==> restarts[j + 1] == restarts[j] + interval
  }

  lemma ExtendedPoints(data: Slice, l: Layout, p: Pair, shared: nat, restart: bool)
    requires OffsetsOk(data, l) && RestartsOk(l) && shared <= |p.key|
    ensures var m := Extended(data, l, p, shared, restart);
            && (forall j :: 0 <= j < |m.restarts| ==> m.restarts[j] < |m.offsets|)
            && Points(m) == (if restart then Points(l) + [|data|] else Points(l))
            && m.pairs == l.pairs + [p] && m.restarts == if restart then l.restarts + [|l.pairs|] else l.restarts
  {
  }

  /** The state of a builder. */
  ghost predicate BuilderOk(interval: nat, buffer: Slice, restarts: seq<nat>, counter: nat, lastKey: Slice, l: Layout)
  {
    && 1 <= interval && counter <= interval
    && Laid(buffer, l) && restarts == Points(l)
    && lastKey == (if l.pairs == [] then [] else l.pairs[|l.pairs| - 1].key)
    && counter == |l.pairs| - l.restarts[|l.restarts| - 1]
    && Spaced(l.restarts, interval)
  }

  lemma BuilderMeans(interval: nat, buffer: Slice, restarts: seq<nat>, counter: nat, lastKey: Slice, l: Layout)
    requires BuilderOk(interval, buffer, restarts, counter, lastKey, l)
    ensures counter <= interval && restarts == Points(l)
    ensures lastKey == if l.pairs == [] then [] else l.pairs[|l.pairs| - 1].key
  {
  }

  lemma AddKeeps(interval: nat, buffer: Slice, restarts: seq<nat>, counter: nat, lastKey: Slice, l: Layout, p: Pair, shared: nat, restart: bool)
    requires BuilderOk(interval, buffer, restarts, counter, lastKey, l)
    requires shared <= |p.key| < TWO_32 && shared <= |lastKey| && lastKey[..shared] == p.key[..shared]
    requires restart <==> counter == interval
    requires restart ==> shared == 0
    ensures BuilderOk(interval, buffer + EntryBytes(shared, p), if restart then restarts + [|buffer|] else restarts,
                      (if restart then 0 else counter) + 1, p.key, Extended(buffer, l, p, shared, restart))
    ensures Extended(buffer, l, p, shared, restart).pairs == l.pairs + [p]
  {
    hide EntryBytes, EntryAt;
    ExtendedIsLaid(buffer, l, p, shared, restart);
    ExtendedPoints(buffer, l, p, shared, restart);
  }

  // ------------------------------------------------------------------ BlockBuilder

  class BlockBuilder {
    const interval: nat
    var buffer: Slice
    var restarts: seq<nat>
    var counter: nat
    var lastKey: Slice
    ghost var layout: Layout

    ghost predicate Valid()
      reads this
    {
      BuilderOk(interval, buffer, restarts, counter, lastKey, layout)
    }

    constructor (interval: nat)
      requires interval >= 1
      ensures Valid() && layout.pairs == [] && this.interval == interval
    {
      this.interval := interval;
      buffer, restarts, counter, lastKey := [], [0], 0, [];
      layout := Empty();
    }

    method Add(key: Slice, value: Slice)
      requires Valid() && |key| < TWO_32 && |value| < TWO_32
      modifies this
      ensures Valid() && layout.pairs == old(layout.pairs) + [Pair(key, value)]
    {
      hide EntryBytes, Common, BuilderOk, Extended;
      BuilderMeans(interval, buffer, restarts, counter, lastKey, layout);
      var shared, restart := 0, false;
      ghost var points, count := restarts, counter;
      if counter < interval {
        shared := SharedWith(lastKey, key);
      } else {
        restart := true;
        restarts := restarts + [|buffer|];
        counter := 0;
      }
      var e := PutEntry(shared, key, value);
      AddKeeps(interval, buffer, points, count, lastKey, layout, Pair(key, value), shared, restart);
      layout := Extended(buffer, layout, Pair(key, value), shared, restart);
      buffer := buffer + e;
      lastKey := lastKey[..shared] + key[shared..];
      assert lastKey == key;
      counter := counter + 1;
    }

    method Finish() returns (block: Slice)
      requires Valid()
      ensures block == BlockBytes(buffer, Points(layout))
    {
      hide BuilderOk, Fixed, FixedAll;
      BuilderMeans(interval, buffer, restarts, counter, lastKey, layout);
      block := buffer;
      assert buffer + [] == buffer;
      for i := 0 to |restarts|
        invariant block == buffer + FixedAll(restarts[..i])
      {
        OneMorePoint(restarts, i);
        assert buffer + (FixedAll(restarts[..i]) + Fixed(restarts[i], 4)) == block + Fixed(restarts[i], 4);
        block := block + Fixed(restarts[i], 4);
      }
      assert restarts[..|restarts|] == restarts;
      block := block + Fixed(|restarts|, 4);
    }
  }

  method PutEntry(shared: nat, key: Slice, value: Slice) returns (e: Slice)
    requires shared <= |key| < TWO_32 && |value| < TWO_32
    ensures e == EntryBytes(shared, Pair(key, value))
  {
    var a := EncodeVarint32(shared);
    var b := EncodeVarint32(|key| - shared);
    var c := EncodeVarint32(|value|);
    e := a + b + c + key[shared..] + value;
  }

  /** The sharing loop of Add. */
  method SharedWith(last: Slice, key: Slice) returns (shared: nat)
    ensures shared == Common(last, key, 0)
    ensures shared <= |last| && shared <= |key| && last[..shared] == key[..shared]
  {
    shared := 0;
    while shared < |last| && shared < |key| && last[shared] == key[shared]
      invariant shared <= |last| && shared <= |key| && last[..shared] == key[..shared]
    {
      shared := shared + 1;
    }
    CommonIs(last, key, 0, shared);
  }
}
