/** A cursor over blocks behind an index (table/two_level_iterator.cc). */
module TwoLevel {
  import opened Bytes
  import opened InternalKeys
  import opened Cursor
  import opened Merging

  /** Where block `i` starts in the joined sequence. */
  function Offset(blocks: seq<seq<Entry>>, i: nat): nat
    requires i <= |blocks|
  {
    |Concat(blocks[..i])|
  }

  lemma OffsetStep(blocks: seq<seq<Entry>>, i: nat)
    requires i < |blocks|
    ensures Offset(blocks, i + 1) == Offset(blocks, i) + |blocks[i]|
    ensures Offset(blocks, 0) == 0 && Offset(blocks, |blocks|) == |Concat(blocks)|
  {
    assert blocks[..i + 1][..i] == blocks[..i] && blocks[..|blocks|] == blocks;
  }

  lemma {:induction false} OffsetsGrow(blocks: seq<seq<Entry>>, i: nat, j: nat)
    requires i <= j <= |blocks|
    ensures Offset(blocks, i) <= Offset(blocks, j) && Concat(blocks[..i]) <= Concat(blocks[..j])
  {
    if i < j {
      OffsetsGrow(blocks, i, j - 1);
      assert blocks[..j][..j - 1] == blocks[..j - 1];
    }
  }

  /** An entry of the joined sequence stands in its block. */
  lemma EntryOfBlock(blocks: seq<seq<Entry>>, i: nat, k: nat)
    requires i < |blocks| && k < |blocks[i]|
    ensures Offset(blocks, i) + k < |Concat(blocks)| && Concat(blocks)[Offset(blocks, i) + k] == blocks[i][k]
  {
    assert blocks[..i + 1][..i] == blocks[..i] && blocks[..|blocks|] == blocks;
    OffsetsGrow(blocks, i + 1, |blocks|);
  }

  /** Every entry of block `i` is at or before key `i`, and every later entry is after it. */
  ghost predicate Separated(blocks: seq<seq<Entry>>, keys: seq<IKey>)
  {
    && |keys| == |blocks| && Sorted(Concat(blocks))
    && (forall i, j :: 0 <= i < j < |keys| ==> ILess(keys[i], keys[j]))
    && (forall i, k :: 0 <= i < |keys| && 0 <= k < |Concat(blocks)| ==>
          (k < Offset(blocks, i + 1) <==> !ILess(keys[i], Concat(blocks)[k].Ikey())))
  }

  /** Seek of the index cursor. */
  function FirstKey(keys: seq<IKey>, target: IKey, i: nat): (r: nat)
    requires i <= |keys|
    ensures i <= r <= |keys|
    ensures forall j :: i <= j < r ==> ILess(keys[j], target)
    ensures r < |keys| ==> !ILess(keys[r], target)
    decreases |keys| - i
  {
    if i < |keys| && ILess(keys[i], target) then FirstKey(keys, target, i + 1) else i
  }

  class TwoLevelIterator {
    const blocks: seq<seq<Entry>>
    const keys: seq<IKey>
    /** Position of index_iter_; off either end it has none. */
    var index: nat
    var data: InternalIterator?
    /** data_block_handle_ */
    var handle: nat

    /** The data cursor belongs to the block the index stands on; without an index position there is none. */
    ghost predicate Wired()
      reads this, data
    {
      && |keys| == |blocks| && index <= |blocks|
      && (index < |blocks| ==> data != null && handle == index && data.entries == blocks[index] && data.at <= |data.entries|)
      && (index == |blocks| ==> data == null)
    }

    ghost predicate Valid()
      reads this, data
    {
      Wired() && (data != null ==> data.Valid())
    }

    /** The position in the joined sequence. */
    ghost function At(): nat
      requires Valid()
      reads this, data
    {
      if data == null then |Concat(blocks)| else Offset(blocks, index) + data.at
    }

    constructor (blocks: seq<seq<Entry>>, keys: seq<IKey>)
      requires |keys| == |blocks|
      ensures Valid() && At() == |Concat(blocks)| && this.blocks == blocks && this.keys == keys
    {
      this.blocks, this.keys := blocks, keys;
      index, data, handle := |blocks|, null, 0;
    }

    method Item() returns (e: Entry)
      requires Valid() && At() < |Concat(blocks)|
      ensures e == Concat(blocks)[At()]
    {
      EntryOfBlock(blocks, index, data.at);
      e := data.Item();
    }

    /** The block the index now stands on is opened, unless it is the one that is open already. */
    method InitDataBlock()
      requires |keys| == |blocks| && index <= |blocks|
      requires data != null ==> handle < |blocks| && data.entries == blocks[handle] && data.at <= |data.entries|
      modifies this`data, this`handle
      ensures Wired() && (data == null || data == old(data) || fresh(data))
    {
      if index == |blocks| {
        data := null;
      } else if data != null && index == handle {
      } else {
        data := new InternalIterator(blocks[index]);
        handle := index;
      }
    }

    method SkipEmptyDataBlocksForward()
      requires Wired()
      modifies this, data
      ensures Valid() && (data == null || data == old(data) || fresh(data))
      ensures At() == if old(data) == null then |Concat(blocks)|
                      else if old(data.Valid()) then Offset(blocks, old(index)) + old(data.at) else Offset(blocks, old(index) + 1)
    {
      hide Concat, Offset, Sorted;
      ghost var p := if data == null then |Concat(blocks)| else if data.Valid() then Offset(blocks, index) + data.at else Offset(blocks, index + 1);
      while data == null || !data.Valid()
        invariant Wired() && (data == null || data == old(data) || fresh(data))
        invariant p == if data == null then |Concat(blocks)| else if data.Valid() then Offset(blocks, index) + data.at else Offset(blocks, index + 1)
        decreases |blocks| - index
      {
        if index == |blocks| {
          data := null;
          return;
        }
        OffsetStep(blocks, index);
        index := index + 1;
        if index < |blocks| { OffsetStep(blocks, index); }
        InitDataBlock();
        if data != null { data.SeekToFirst(); }
      }
    }

    method SkipEmptyDataBlocksBackward()
      requires Wired()
      modifies this, data
      ensures Valid() && (data == null || data == old(data) || fresh(data))
      ensures At() == if old(data) == null then |Concat(blocks)|
                      else if old(data.Valid()) then Offset(blocks, old(index)) + old(data.at)
                      else if Offset(blocks, old(index)) == 0 then |Concat(blocks)| else Offset(blocks, old(index)) - 1
    {
      ghost var p := Backward();
      while data == null || !data.Valid()
        invariant Wired() && (data == null || data == old(data) || fresh(data)) && p == Backward()
        decreases if data == null then 0 else index + 1
      {
        if index == |blocks| {
          data := null;
          return;
        }
        OffsetStep(blocks, index);
        index := if index == 0 then |blocks| else index - 1;
        if index < |blocks| { OffsetStep(blocks, index); }
        InitDataBlock();
        if data != null { data.SeekToLast(); }
      }
    }

    /** Where a backward scan will end: the data cursor has run off the front of its block, or stands. */
    ghost function Backward(): nat
      requires Wired()
      reads this, data
    {
      if data == null then |Concat(blocks)|
      else if data.Valid() then Offset(blocks, index) + data.at
      else if Offset(blocks, index) == 0 then |Concat(blocks)| else Offset(blocks, index) - 1
    }

    method Next()
      requires Valid() && At() < |Concat(blocks)|
      modifies this, data
      ensures Valid() && At() == old(At()) + 1
    {
      OffsetStep(blocks, index);
      data.Next();
      SkipEmptyDataBlocksForward();
    }

    method Prev()
      requires Valid() && At() < |Concat(blocks)|
      modifies this, data
      ensures Valid() && At() == if old(At()) == 0 then |Concat(blocks)| else old(At()) - 1
    {
      data.Prev();
      SkipEmptyDataBlocksBackward();
    }

    method SeekToFirst()
      requires Valid()
      modifies this, data
      ensures Valid() && At() == 0
    {
      index := 0;
      InitDataBlock();
      if data != null {
        OffsetStep(blocks, 0);
        data.SeekToFirst();
      }
      SkipEmptyDataBlocksForward();
    }

    method SeekToLast()
      requires Valid()
      modifies this, data
      ensures Valid() && At() == if Concat(blocks) == [] then 0 else |Concat(blocks)| - 1
    {
      index := if blocks == [] then 0 else |blocks| - 1;
      InitDataBlock();
      if data != null {
        OffsetStep(blocks, index);
        data.SeekToLast();
      }
      SkipEmptyDataBlocksBackward();
    }

    method Seek(target: IKey)
      requires Valid() && Separated(blocks, keys)
      modifies this, data
      ensures Valid() && At() == SeekFrom(Concat(blocks), target, 0)
    {
      index := FirstKey(keys, target, 0);
      SeekIsInBlock(blocks, keys, target, index);
      InitDataBlock();
      if data != null { data.Seek(target); }
      SkipEmptyDataBlocksForward();
    }
  }

  /** What lies before the block the index finds is before the target. */
  lemma BeforeBlock(blocks: seq<seq<Entry>>, keys: seq<IKey>, target: IKey, i: nat)
    requires Separated(blocks, keys) && i == FirstKey(keys, target, 0)
    ensures Offset(blocks, i) <= |Concat(blocks)|
    ensures forall k :: 0 <= k < Offset(blocks, i) ==> ILess(Concat(blocks)[k].Ikey(), target)
  {
    hide Sorted, Concat;
    OffsetsGrow(blocks, i, |blocks|);
    assert blocks[..|blocks|] == blocks;
    if i == 0 {
      NothingJoined(blocks);
    } else {
      var all := Concat(blocks);
      forall k | 0 <= k < Offset(blocks, i)
        ensures ILess(all[k].Ikey(), target)
      {
        assert k < Offset(blocks, (i - 1) + 1) <==> !ILess(keys[i - 1], all[k].Ikey());
        IOrder(all[k].Ikey(), keys[i - 1], target);
      }
    }
  }

  lemma NothingJoined(blocks: seq<seq<Entry>>)
    ensures Offset(blocks, 0) == 0
  {
  }

  /** The first entry at or after a target is in the block the index finds, or is the first one after that block. */
  lemma SeekIsInBlock(blocks: seq<seq<Entry>>, keys: seq<IKey>, target: IKey, i: nat)
    requires Separated(blocks, keys) && i == FirstKey(keys, target, 0)
    ensures i == |blocks| ==> SeekFrom(Concat(blocks), target, 0) == |Concat(blocks)|
    ensures i < |blocks| ==>
              var k := SeekFrom(blocks[i], target, 0);
              SeekFrom(Concat(blocks), target, 0) == if k < |blocks[i]| then Offset(blocks, i) + k else Offset(blocks, i + 1)
  {
    hide Sorted, ILess, Concat;
    var all := Concat(blocks);
    BeforeBlock(blocks, keys, target, i);
    if i == |blocks| {
      assert blocks[..i] == blocks;
      SeekIsFirst(all, target, |all|);
    } else {
      var k := SeekFrom(blocks[i], target, 0);
      OffsetStep(blocks, i);
      OffsetsGrow(blocks, i + 1, |blocks|);
      var p := Offset(blocks, i) + k;
      forall j | Offset(blocks, i) <= j < p
        ensures ILess(all[j].Ikey(), target)
      {
        EntryOfBlock(blocks, i, j - Offset(blocks, i));
      }
      if k < |blocks[i]| {
        EntryOfBlock(blocks, i, k);
      } else if p < |all| {
        IOrder(target, keys[i], all[p].Ikey());
        IOrder(all[p].Ikey(), target, keys[i]);
      }
      SeekIsFirst(all, target, p);
    }
  }
}
