/** Tables: sorted blocks behind an index of separators, with filters (table/table_builder.cc, table/table.cc). */
module Tables {
  import opened Bytes
  import opened InternalKeys
  import opened Coding
  import opened Merging
  import TwoLevel
  import opened Separators
  import opened Filters

  /** A data block and its offset in the file. */
  datatype DataBlock = DataBlock(offset: nat, entries: seq<Entry>)

  /** A finished table: data blocks, index entries (a key and the number of a block), filter block. */
  datatype Table = Table(blocks: seq<DataBlock>, index: seq<(IKey, nat)>, filter: Slice)

  function Contents(blocks: seq<DataBlock>): seq<Entry>
  {
    if blocks == [] then [] else Contents(blocks[..|blocks| - 1]) + blocks[|blocks| - 1].entries
  }

  function First(b: DataBlock): IKey requires b.entries != [] { b.entries[0].Ikey() }
  function Last(b: DataBlock): IKey requires b.entries != [] { b.entries[|b.entries| - 1].Ikey() }

  /** Blocks are not empty, sorted, and in order. */
  ghost predicate BlocksOk(blocks: seq<DataBlock>)
  {
    && (forall i :: 0 <= i < |blocks| ==> blocks[i].entries != [] && Sorted(blocks[i].entries))
    && (forall i, j :: 0 <= i < j < |blocks| ==> ILess(Last(blocks[i]), First(blocks[j])))
  }

  /** `sep` separates a block from what comes next; if it is not the last key, its user key is new. */
  ghost predicate Separates(last: IKey, sep: IKey, next: IKey)
  {
    !ILess(sep, last) && ILess(sep, next) && (sep == last || Less(sep.user, next.user))
  }

  ghost predicate IndexOk(blocks: seq<DataBlock>, index: seq<(IKey, nat)>)
    requires BlocksOk(blocks)
  {
    && |index| <= |blocks|
    && (forall i :: 0 <= i < |index| ==> index[i].1 == i && !ILess(index[i].0, Last(blocks[i])))
    && (forall i :: 0 <= i < |index| && i + 1 < |blocks| ==> Separates(Last(blocks[i]), index[i].0, First(blocks[i + 1])))
  }

  ghost predicate FilterCovers(hash: HashFunction, filter: Slice, b: DataBlock)
  {
    forall e :: e in b.entries ==> FilterSays(hash, filter, b.offset, e.key)
  }

  ghost predicate TableOk(hash: HashFunction, t: Table)
  {
    && BlocksOk(t.blocks) && IndexOk(t.blocks, t.index) && |t.index| == |t.blocks|
    && forall i :: 0 <= i < |t.blocks| ==> FilterCovers(hash, t.filter, t.blocks[i])
  }

  // ------------------------------------------------------------------ reading

  function IndexKeys(t: Table): (r: seq<IKey>)
    ensures |r| == |t.index| && forall i :: 0 <= i < |r| ==> r[i] == t.index[i].0
  {
    seq(|t.index|, i requires 0 <= i < |t.index| => t.index[i].0)
  }

  /** InternalGet with SaveValue: at most one data block is read. */
  method InternalGet(hash: HashFunction, t: Table, key: Slice, snapshot: nat) returns (r: Option<Entry>)
    requires TableOk(hash, t)
    ensures r == Find(Contents(t.blocks), key, snapshot)
  {
    hide FilterSays, Contents;
    var target := LookupKey(key, snapshot);
    var i := TwoLevel.FirstKey(IndexKeys(t), target, 0);
    LookupIsLocal(hash, t, key, snapshot);
    if i == |t.index| { return None; }
    var b := t.blocks[t.index[i].1];
    var may := BlockMayMatch(hash, t.filter, b.offset, key);
    if !may {
      NotInBlock(hash, t.filter, b, key, SeekFrom(b.entries, target, 0));
      return None;
    }
    r := FoundAt(b.entries, key, SeekFrom(b.entries, target, 0));
  }

  lemma NotInBlock(hash: HashFunction, filter: Slice, b: DataBlock, key: Slice, pos: nat)
    requires FilterCovers(hash, filter, b) && !FilterSays(hash, filter, b.offset, key) && pos <= |b.entries|
    ensures FoundAt(b.entries, key, pos) == None
  {
    if pos < |b.entries| {
      assert b.entries[pos] in b.entries;
    }
  }

  lemma {:induction false} ContentsSplit(blocks: seq<DataBlock>, i: nat)
    requires i < |blocks|
    ensures Contents(blocks) == Contents(blocks[..i]) + (blocks[i].entries + Contents(blocks[i + 1..]))
    decreases |blocks|
  {
    var n := |blocks| - 1;
    if i < n {
      ContentsSplit(blocks[..n], i);
      assert blocks[..n][..i] == blocks[..i] && blocks[..n][i + 1..] == blocks[i + 1..][..|blocks[i + 1..]| - 1];
    } else {
      assert blocks[i + 1..] == [];
    }
  }

  lemma {:induction false} ContentsIn(blocks: seq<DataBlock>, e: Entry)
    requires e in Contents(blocks)
    ensures exists j :: 0 <= j < |blocks| && e in blocks[j].entries
  {
    var n := |blocks| - 1;
    if e in Contents(blocks[..n]) {
      ContentsIn(blocks[..n], e);
      var j :| 0 <= j < |blocks[..n]| && e in blocks[..n][j].entries;
      assert blocks[j] == blocks[..n][j];
    }
  }

  /** The first entry of a table that starts with a block. */
  lemma {:induction false} ContentsFirst(blocks: seq<DataBlock>)
    requires blocks != [] && forall i :: 0 <= i < |blocks| ==> blocks[i].entries != []
    ensures Contents(blocks) != [] && Contents(blocks)[0] == blocks[0].entries[0]
  {
    if |blocks| > 1 {
      ContentsFirst(blocks[..|blocks| - 1]);
    } else {
      assert blocks[..0] == [];
    }
  }

  lemma EntryBounds(b: DataBlock, e: Entry)
    requires b.entries != [] && Sorted(b.entries) && e in b.entries
    ensures !ILess(e.Ikey(), First(b)) && !ILess(Last(b), e.Ikey())
  {
    var i :| 0 <= i < |b.entries| && b.entries[i] == e;
    IOrder(First(b), e.Ikey(), First(b));
    IOrder(e.Ikey(), Last(b), e.Ikey());
  }

  /** Everything in the blocks before the one the index names is before the target. */
  lemma BlocksBefore(t: Table, target: IKey, i: nat, e: Entry)
    requires BlocksOk(t.blocks) && IndexOk(t.blocks, t.index) && |t.index| == |t.blocks|
    requires i <= |t.index| && (forall j :: 0 <= j < i ==> ILess(t.index[j].0, target)) && e in Contents(t.blocks[..i])
    ensures ILess(e.Ikey(), target)
  {
    ContentsIn(t.blocks[..i], e);
    var j :| 0 <= j < |t.blocks[..i]| && e in t.blocks[..i][j].entries;
    var b := t.blocks[j];
    EntryBounds(b, e);
    IOrder(e.Ikey(), Last(b), t.index[j].0);
    IOrder(e.Ikey(), t.index[j].0, target);
    IOrder(t.index[j].0, e.Ikey(), target);
  }

  /** Searching a run in three parts of which the first lies before the target. */
  lemma SeekInParts(a: seq<Entry>, b: seq<Entry>, c: seq<Entry>, target: IKey)
    requires forall e :: e in a ==> ILess(e.Ikey(), target)
    requires c != [] ==> !ILess(c[0].Ikey(), target)
    requires Sorted(a + (b + c))
    ensures SeekFrom(a + (b + c), target, 0) == |a| + SeekFrom(b, target, 0)
  {
    var all, p := a + (b + c), SeekFrom(b, target, 0);
    forall j | 0 <= j < |a| + p
      ensures ILess(all[j].Ikey(), target)
    {
      if j < |a| { assert all[j] == a[j] && a[j] in a; } else { assert all[j] == b[j - |a|]; }
    }
    SeekIsFirst(all, target, |a| + p);
  }

  lemma {:induction false} ContentsSorted(blocks: seq<DataBlock>)
    requires BlocksOk(blocks)
    ensures Sorted(Contents(blocks))
  {
    if blocks != [] {
      var n := |blocks| - 1;
      var a, b := Contents(blocks[..n]), blocks[n].entries;
      ContentsSorted(blocks[..n]);
      forall i, j | 0 <= i < |a| && 0 <= j < |b|
        ensures ILess(a[i].Ikey(), b[j].Ikey())
      {
        assert a[i] in a;
        ContentsIn(blocks[..n], a[i]);
        var k :| 0 <= k < |blocks[..n]| && a[i] in blocks[..n][k].entries;
        assert b[j] in b;
        EntryBounds(blocks[k], a[i]);
        EntryBounds(blocks[n], b[j]);
        IOrder(a[i].Ikey(), Last(blocks[k]), First(blocks[n]));
        IOrder(a[i].Ikey(), First(blocks[n]), b[j].Ikey());
      }
      SortedConcat(a, b);
    }
  }

  lemma SortedConcat(a: seq<Entry>, b: seq<Entry>)
    requires Sorted(a) && Sorted(b)
    requires forall i, j :: 0 <= i < |a| && 0 <= j < |b| ==> ILess(a[i].Ikey(), b[j].Ikey())
    ensures Sorted(a + b)
  {
  }

  /** One block decides the lookup, also when no entry of that block is at or after the target. */
  lemma LookupIsLocal(hash: HashFunction, t: Table, key: Slice, snapshot: nat)
    requires TableOk(hash, t)
    ensures var target := LookupKey(key, snapshot);
            var i := TwoLevel.FirstKey(IndexKeys(t), target, 0);
            Find(Contents(t.blocks), key, snapshot) ==
            if i == |t.blocks| then None else FoundAt(t.blocks[i].entries, key, SeekFrom(t.blocks[i].entries, target, 0))
  {
    hide Contents, FilterCovers, SeekFrom, ILess, Separates, TwoLevel.FirstKey;
    var target := LookupKey(key, snapshot);
    var i, n := TwoLevel.FirstKey(IndexKeys(t), target, 0), |t.blocks|;
    var all := Contents(t.blocks);
    ContentsSorted(t.blocks);
    forall e | e in Contents(t.blocks[..i])
      ensures ILess(e.Ikey(), target)
    {
      BlocksBefore(t, target, i, e);
    }
    if i == n {
      assert t.blocks[..i] == t.blocks;
      forall j | 0 <= j < |all| ensures ILess(all[j].Ikey(), target) { assert all[j] in all; }
      SeekIsFirst(all, target, |all|);
    } else {
      ContentsSplit(t.blocks, i);
      var a, b, c := Contents(t.blocks[..i]), t.blocks[i].entries, Contents(t.blocks[i + 1..]);
      if i + 1 < n {
        ContentsFirst(t.blocks[i + 1..]);
        NextBlockIsAfter(Last(t.blocks[i]), t.index[i].0, First(t.blocks[i + 1]), target);
      } else {
        NoContents(t.blocks[i + 1..]);
      }
      SeekInParts(a, b, c, target);
      if SeekFrom(b, target, 0) == |b| {
        assert ILess(Last(t.blocks[i]), target);
      }
    }
  }

  lemma NoContents(blocks: seq<DataBlock>)
    requires blocks == []
    ensures Contents(blocks) == []
  {
  }

  /** A target at or before the separator is before the next block; past the last key, it is also of an earlier user key. */
  lemma NextBlockIsAfter(last: IKey, sep: IKey, next: IKey, target: IKey)
    requires Separates(last, sep, next) && !ILess(sep, target)
    ensures !ILess(next, target)
    ensures ILess(last, target) ==> next.user != target.user
  {
    IOrder(target, sep, next);
    IOrder(target, next, target);
    Order(target.user, sep.user, next.user);
    Order(sep.user, target.user, sep.user);
    IOrder(last, target, last);
  }

  // ------------------------------------------------------------------ iterating

  function BlockRuns(t: Table): (r: seq<seq<Entry>>)
    ensures |r| == |t.blocks| && forall i :: 0 <= i < |r| ==> r[i] == t.blocks[i].entries
  {
    seq(|t.blocks|, i requires 0 <= i < |t.blocks| => t.blocks[i].entries)
  }

  lemma {:induction false} ConcatIsContents(blocks: seq<DataBlock>, runs: seq<seq<Entry>>)
    requires |runs| == |blocks| && forall i :: 0 <= i < |runs| ==> runs[i] == blocks[i].entries
    ensures Concat(runs) == Contents(blocks)
  {
    if blocks != [] {
      ConcatIsContents(blocks[..|blocks| - 1], runs[..|runs| - 1]);
    }
  }

  /** The block and the place in it of an entry. */
  lemma {:induction false} Locate(runs: seq<seq<Entry>>, k: nat) returns (j: nat, m: nat)
    requires k < |Concat(runs)|
    ensures j < |runs| && m < |runs[j]| && k == TwoLevel.Offset(runs, j) + m && Concat(runs)[k] == runs[j][m]
  {
    var n := |runs| - 1;
    if k < |Concat(runs[..n])| {
      j, m := Locate(runs[..n], k);
      assert runs[..n][..j] == runs[..j];
    } else {
      j, m := n, k - |Concat(runs[..n])|;
    }
  }

  lemma LastsIncrease(blocks: seq<DataBlock>, i: nat, j: nat)
    requires BlocksOk(blocks) && i <= j < |blocks|
    ensures !ILess(Last(blocks[j]), Last(blocks[i])) && !ILess(First(blocks[j]), First(blocks[i]))
  {
    var a, b := blocks[i], blocks[j];
    assert a.entries[0] in a.entries && b.entries[0] in b.entries;
    EntryBounds(a, a.entries[0]);
    EntryBounds(b, b.entries[0]);
    IOrder(Last(a), First(b), Last(b));
    IOrder(Last(a), Last(b), Last(a));
    IOrder(First(a), Last(a), First(b));
    IOrder(First(a), First(b), First(a));
  }

  lemma KeySplits(t: Table, i: nat, j: nat, e: Entry)
    requires BlocksOk(t.blocks) && IndexOk(t.blocks, t.index) && |t.index| == |t.blocks| && i < |t.blocks| && j < |t.blocks|
    requires e in t.blocks[j].entries
    ensures j <= i <==> !ILess(t.index[i].0, e.Ikey())
  {
    EntryBounds(t.blocks[j], e);
    if j <= i {
      LastsIncrease(t.blocks, j, i);
      IOrder(e.Ikey(), Last(t.blocks[j]), Last(t.blocks[i]));
      IOrder(e.Ikey(), Last(t.blocks[i]), t.index[i].0);
    } else {
      LastsIncrease(t.blocks, i + 1, j);
      IOrder(t.index[i].0, First(t.blocks[i + 1]), First(t.blocks[j]));
      IOrder(t.index[i].0, First(t.blocks[j]), e.Ikey());
    }
  }

  lemma IndexKeysIncrease(hash: HashFunction, t: Table, i: nat, j: nat)
    requires TableOk(hash, t) && i < j < |t.blocks|
    ensures ILess(t.index[i].0, t.index[j].0)
  {
    var b := t.blocks[j];
    var last := b.entries[|b.entries| - 1];
    assert last in b.entries;
    KeySplits(t, i, j, last);
    IOrder(t.index[i].0, Last(b), t.index[j].0);
  }

  /** The entries at or before an index key are those of the blocks up to its own. */
  lemma SplitsHere(t: Table, i: nat, k: nat)
    requires BlocksOk(t.blocks) && IndexOk(t.blocks, t.index) && |t.index| == |t.blocks|
    requires i < |t.blocks| && k < |Concat(BlockRuns(t))|
    ensures k < TwoLevel.Offset(BlockRuns(t), i + 1) <==> !ILess(t.index[i].0, Concat(BlockRuns(t))[k].Ikey())
  {
    hide BlocksOk, IndexOk, Concat, TwoLevel.Offset;
    var runs := BlockRuns(t);
    var j, m := Locate(runs, k);
    assert runs[j][m] in t.blocks[j].entries;
    KeySplits(t, i, j, runs[j][m]);
    TwoLevel.OffsetStep(runs, j);
    if j <= i {
      TwoLevel.OffsetsGrow(runs, j + 1, i + 1);
    } else {
      TwoLevel.OffsetsGrow(runs, i + 1, j);
    }
  }

  /** Table::NewIterator: a two-level cursor over this index walks the contents of the table. */
  lemma TableIsSeparated(hash: HashFunction, t: Table)
    requires TableOk(hash, t)
    ensures Concat(BlockRuns(t)) == Contents(t.blocks)
    ensures TwoLevel.Separated(BlockRuns(t), IndexKeys(t))
  {
    hide Contents, FilterCovers, BlocksOk, IndexOk, Concat, TwoLevel.Offset, BlockRuns;
    var runs, keys := BlockRuns(t), IndexKeys(t);
    ConcatIsContents(t.blocks, runs);
    ContentsSorted(t.blocks);
    forall i, j | 0 <= i < j < |keys|
      ensures ILess(keys[i], keys[j])
    {
      IndexKeysIncrease(hash, t, i, j);
    }
    forall i, k | 0 <= i < |keys| && 0 <= k < |Concat(runs)|
      ensures k < TwoLevel.Offset(runs, i + 1) <==> !ILess(keys[i], Concat(runs)[k].Ikey())
    {
      SplitsHere(t, i, k);
    }
  }

  // ------------------------------------------------------------------ building

  class TableBuilder {
    const filter: FilterBlockBuilder
    var blocks: seq<DataBlock>
    var block: seq<Entry>
    var index: seq<(IKey, nat)>
    var pendingIndexEntry: bool
    var lastKey: IKey
    var offset: nat

    ghost function Entries(): seq<Entry>
      reads this
    {
      Contents(blocks) + block
    }

    /** The keys of a block are in the filter its offset selects. */
    ghost predicate Filtered(start: nat, entries: seq<Entry>)
      reads filter
    {
      forall e :: e in entries ==> e.key in filter.KeysAt(start / FILTER_BASE)
    }

    ghost predicate IndexSoFar()
      reads `blocks, `block, `index, `pendingIndexEntry, `lastKey
    {
      && BlocksOk(blocks) && IndexOk(blocks, index) && Sorted(block)
      && (pendingIndexEntry ==> blocks != [] && block == [])
      && |index| == |blocks| - (if pendingIndexEntry then 1 else 0)
      && (block != [] ==> lastKey == block[|block| - 1].Ikey())
      && (blocks != [] && block == [] ==> lastKey == Last(blocks[|blocks| - 1]))
      && (blocks != [] && block != [] ==> Separates(Last(blocks[|blocks| - 1]), index[|blocks| - 1].0, block[0].Ikey()))
    }

    ghost predicate FiltersSoFar()
      reads this, filter
    {
      && filter.Valid() && |filter.offsets| == offset / FILTER_BASE
      && (forall i :: 0 <= i < |blocks| ==> Filtered(blocks[i].offset, blocks[i].entries))
      && Filtered(offset, block)
    }

    ghost predicate Valid()
      reads this, filter
    {
      IndexSoFar() && FiltersSoFar() && (blocks != [] ==> pendingIndexEntry || block != [])
    }

    constructor (filter: FilterBlockBuilder)
      requires filter.Valid() && filter.offsets == [] && filter.pending == []
      ensures Valid() && Entries() == [] && this.filter == filter
    {
      this.filter := filter;
      blocks, block, index, pendingIndexEntry, lastKey, offset := [], [], [], false, IKey([], 0), 0;
    }

    /** The key added last. */
    ghost predicate Follows(key: IKey)
      reads this
    {
      (blocks == [] && block == []) || ILess(lastKey, key)
    }

    /** `full` says whether the block has reached its size; `size` is what it takes up once written. */
    method Add(e: Entry, full: seq<Entry> -> bool, size: nat)
      requires Valid() && Follows(e.Ikey())
      modifies this, filter
      ensures Valid() && Entries() == old(Entries()) + [e] && lastKey == e.Ikey()
    {
      hide Contents, IndexSoFar, Filtered;
      AddIndexEntry(e.Ikey());
      AddEntry(e);
      if full(block) {
        Flush(size);
      }
    }

    method AddEntry(e: Entry)
      requires IndexSoFar() && FiltersSoFar() && !pendingIndexEntry && Follows(e.Ikey()) && Separated(e.Ikey())
      modifies this`block, this`lastKey, filter
      ensures Valid() && block == old(block) + [e] && lastKey == e.Ikey()
    {
      hide Contents, IndexSoFar, FilterBlockBuilder.KeysAt, FilterBlockBuilder.Valid;
      AddKeyToFilter(e.key);
      AddToBlock(e);
    }

    method AddKeyToFilter(key: Slice)
      requires FiltersSoFar()
      modifies filter
      ensures FiltersSoFar() && key in filter.KeysAt(offset / FILTER_BASE)
    {
      hide FilterBlockBuilder.KeysAt, FilterBlockBuilder.Valid;
      filter.AddKey(key);
      ghost var n := |filter.offsets|;
      forall i | 0 <= i < |blocks|
        ensures Filtered(blocks[i].offset, blocks[i].entries)
      {
        assert old(Filtered(blocks[i].offset, blocks[i].entries));
      }
      assert Filtered(offset, block) by { assert old(Filtered(offset, block)); }
    }

    /** What the separator before the first key of a block has to do. */
    ghost predicate Separated(key: IKey)
      reads this
    {
      blocks != [] && block == [] ==> |index| == |blocks| && BlocksOk(blocks) && Separates(Last(blocks[|blocks| - 1]), index[|blocks| - 1].0, key)
    }

    method AddIndexEntry(key: IKey)
      requires IndexSoFar() && Follows(key) && (blocks != [] ==> pendingIndexEntry || block != [])
      modifies this`index, this`pendingIndexEntry
      ensures IndexSoFar() && !pendingIndexEntry && Separated(key)
    {
      if pendingIndexEntry {
        var sep := FindInternalSeparator(lastKey, key);
        index := index + [(sep, |blocks| - 1)];
        pendingIndexEntry := false;
      }
    }

    /** data_block.Add and last_key. */
    method AddToBlock(e: Entry)
      requires IndexSoFar() && !pendingIndexEntry && Follows(e.Ikey()) && Separated(e.Ikey())
      modifies this`block, this`lastKey
      ensures IndexSoFar() && block == old(block) + [e] && lastKey == e.Ikey()
    {
      forall i | 0 <= i < |block|
        ensures ILess(block[i].Ikey(), e.Ikey())
      {
        if i < |block| - 1 { IOrder(block[i].Ikey(), lastKey, e.Ikey()); }
      }
      block := block + [e];
      lastKey := e.Ikey();
    }

    method Flush(size: nat)
      requires Valid()
      modifies this, filter
      ensures Valid() && Entries() == old(Entries()) && block == [] && lastKey == old(lastKey)
      ensures blocks == [] <==> old(blocks == [] && block == [])
    {
      hide Contents, IndexSoFar, Filtered, FilterBlockBuilder.KeysAt, FilterBlockBuilder.Valid;
      if block == [] { return; }
      AppendBlock();
      assert Filtered(offset, block) by { NothingFiltered(); }
      StartFilter(size);
    }

    lemma NothingFiltered()
      ensures Filtered(offset, [])
    {
    }

    /** The filters of the offsets up to the next block are finished. */
    method StartFilter(size: nat)
      requires FiltersSoFar() && block == []
      modifies this`offset, filter
      ensures FiltersSoFar() && offset == old(offset) + size
    {
      hide FilterBlockBuilder.KeysAt, FilterBlockBuilder.Valid;
      LaterOffset(offset, size);
      offset := offset + size;
      filter.StartBlock(offset);
      forall i | 0 <= i < |blocks|
        ensures Filtered(blocks[i].offset, blocks[i].entries)
      {
        assert old(Filtered(blocks[i].offset, blocks[i].entries));
      }
    }

    static lemma LaterOffset(a: nat, size: nat)
      ensures a / FILTER_BASE <= (a + size) / FILTER_BASE
    {
    }

    /** WriteBlock: the block becomes the last one, and waits for its index entry. */
    method AppendBlock()
      requires IndexSoFar() && block != []
      modifies this`blocks, this`block, this`pendingIndexEntry
      ensures IndexSoFar() && block == [] && pendingIndexEntry && Entries() == old(Entries())
      ensures blocks == old(blocks) + [DataBlock(offset, old(block))]
    {
      hide BlocksOk, IndexOk, Contents, Separates;
      var b := DataBlock(offset, block);
      BlockFits(blocks, index, b);
      ContentsAppend(blocks, b);
      blocks := blocks + [b];
      block := [];
      pendingIndexEntry := true;
    }

    method Finish(size: nat) returns (t: Table)
      requires Valid()
      modifies this, filter
      ensures Contents(t.blocks) == old(Entries())
      ensures |t.filter| < TWO_32 ==> TableOk(filter.hash, t)
    {
      hide Contents, FilterSays, FilterCovers, BlocksOk, IndexOk;
      Flush(size);
      NothingMore();
      var contents := FinishFilter();
      FinishIndex();
      t := Table(blocks, index, contents);
    }

    lemma NothingMore()
      requires block == []
      ensures Entries() == Contents(blocks)
    {
    }

    method FinishFilter() returns (contents: Slice)
      requires FiltersSoFar()
      modifies filter
      ensures |contents| < TWO_32 ==> forall i :: 0 <= i < |blocks| ==> FilterCovers(filter.hash, contents, blocks[i])
    {
      hide FilterSays, FilterBlock, FiltersOk;
      contents := filter.Finish();
      if |contents| < TWO_32 {
        forall i, e | 0 <= i < |blocks| && e in blocks[i].entries
          ensures FilterSays(filter.hash, contents, blocks[i].offset, e.key)
        {
          assert old(Filtered(blocks[i].offset, blocks[i].entries));
          NoFalseNegatives(filter.hash, filter.result, filter.offsets, filter.filters, blocks[i].offset, e.key);
        }
      }
    }

    /** The last block's index entry. */
    method FinishIndex()
      requires IndexSoFar() && block == [] && (blocks != [] ==> pendingIndexEntry)
      modifies this`index, this`pendingIndexEntry
      ensures BlocksOk(blocks) && IndexOk(blocks, index) && |index| == |blocks|
    {
      if pendingIndexEntry {
        var sep := FindInternalSuccessor(lastKey);
        index := index + [(sep, |blocks| - 1)];
        pendingIndexEntry := false;
      }
    }
  }

  lemma ContentsAppend(blocks: seq<DataBlock>, b: DataBlock)
    ensures Contents(blocks + [b]) == Contents(blocks) + b.entries
  {
    assert (blocks + [b])[..|blocks|] == blocks;
  }

  lemma BlockFits(blocks: seq<DataBlock>, index: seq<(IKey, nat)>, b: DataBlock)
    requires BlocksOk(blocks) && IndexOk(blocks, index) && |index| == |blocks| && b.entries != [] && Sorted(b.entries)
    requires blocks != [] ==> Separates(Last(blocks[|blocks| - 1]), index[|blocks| - 1].0, First(b))
    ensures BlocksOk(blocks + [b]) && IndexOk(blocks + [b], index)
  {
    hide Separates, ILess, Sorted;
    forall i | 0 <= i < |blocks|
      ensures ILess(Last(blocks[i]), First(b))
    {
      BlocksBeforeNext(blocks, index[|blocks| - 1].0, b, i);
    }
  }

  lemma BlocksBeforeNext(blocks: seq<DataBlock>, sep: IKey, b: DataBlock, i: nat)
    requires BlocksOk(blocks) && b.entries != [] && i < |blocks| && Separates(Last(blocks[|blocks| - 1]), sep, First(b))
    ensures ILess(Last(blocks[i]), First(b))
  {
    hide ILess;
    var x := blocks[|blocks| - 1];
    assert x.entries[0] in x.entries;
    EntryBounds(x, x.entries[0]);
    IOrder(Last(x), sep, First(b));
    if i < |blocks| - 1 {
      IOrder(Last(blocks[i]), First(x), Last(x));
      IOrder(Last(blocks[i]), Last(x), First(b));
    }
  }
}
