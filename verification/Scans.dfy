/** What an iterator over the whole database shows (DBImpl::NewIterator, db/db_iter.cc). */
module Scans {
  import opened Bytes
  import opened InternalKeys
  import opened Version
  import opened Compaction
  import opened Installing
  import opened History
  import opened VersionReads
  import opened Engine
  import opened Runs
  import opened Cursor
  import opened Merging

  /** NewInternalIterator: the memtables and all tables, merged. */
  ghost predicate InternalView(s: Db, merged: seq<Entry>)
  {
    Sorted(merged) && Entries(merged) == Recent(s) + Stored(s.version)
  }

  ghost function Recent(s: Db): set<Entry>
  {
    Entries(s.mem) + (if s.imm.Some? then Entries(s.imm.value) else {})
  }

  lemma RecentIsTail(s: Db)
    requires Inv(s)
    ensures Recent(s) == Entries(s.history[s.flushed..])
    ensures After(Recent(s), Entries(s.history[..s.flushed]))
    ensures Recent(s) + Entries(s.history[..s.flushed]) == Entries(s.history)
    ensures Numbered(s.history)
  {
    var h, n := s.history, |s.history|;
    forall i | 0 <= i < n ensures h[i].seqno == i + 1 { assert (h + s.pending)[i] == h[i]; }
    assert h[s.sealed..] == h[s.sealed..n] && h[..s.flushed] == h[0..s.flushed] && h[0..n] == h && h[s.flushed..] == h[s.flushed..n];
    SlicesUnion(h, s.flushed, s.sealed, n);
    SlicesUnion(h, 0, s.flushed, n);
    SlicesAfter(h, 0, s.flushed, n);
    assert s.imm.None? ==> h[s.flushed..s.sealed] == [];
  }

  /** The rows of an iterator are exactly the contents at its snapshot, in key order. */
  lemma ScanIsContents(s: Db, merged: seq<Entry>, snapshot: nat, key: Slice, value: Slice)
    requires Inv(s) && InternalView(s, merged) && s.floor <= snapshot
    ensures Read(s.history, key, snapshot) == Some(value) <==>
            exists r :: 0 <= r < |Table(merged, snapshot)| && Table(merged, snapshot)[r].key == key && Table(merged, snapshot)[r].value == value
    ensures forall a, b :: 0 <= a < b < |Table(merged, snapshot)| ==> Less(Table(merged, snapshot)[a].key, Table(merged, snapshot)[b].key)
  {
    RecentIsTail(s);
    DistinctHistory(s.history);
    AgreeWithNewer(Stored(s.version), Entries(s.history[..s.flushed]), s.floor, Recent(s));
    FindIsNewest(merged, key, snapshot);
    var whole := SomeAnswer(Entries(s.history), key, snapshot);
    SeesHistory(s.history, key, snapshot, whole);
    assert Outcome(Find(merged, key, snapshot)) == Outcome(whole);
    RowsAreReads(merged, snapshot, key, value);
    forall a, b | 0 <= a < b < |Table(merged, snapshot)|
      ensures Less(Table(merged, snapshot)[a].key, Table(merged, snapshot)[b].key)
    {
      RowsIncrease(merged, snapshot, a, b);
    }
  }

  /** Rows without sequence numbers, as a reader gets them. */
  function Pairs(rows: seq<Entry>): (r: seq<(Slice, Slice)>)
    ensures |r| == |rows|
    ensures forall i :: 0 <= i < |rows| ==> r[i] == (rows[i].key, rows[i].value)
  {
    seq(|rows|, i requires 0 <= i < |rows| => (rows[i].key, rows[i].value))
  }

  ghost predicate PairsIncrease(pairs: seq<(Slice, Slice)>)
  {
    forall a, b :: 0 <= a < b < |pairs| ==> Less(pairs[a].0, pairs[b].0)
  }

  lemma LastPair(a: seq<(Slice, Slice)>)
    requires PairsIncrease(a)
    ensures a != [] ==> a[|a| - 1] in a
    ensures forall p :: p in a && p != a[|a| - 1] ==> Less(p.0, a[|a| - 1].0)
    ensures a != [] ==> forall p :: p in a[..|a| - 1] <==> p in a && p != a[|a| - 1]
  {
    if a != [] {
      var x := a[|a| - 1];
      assert a == a[..|a| - 1] + [x];
      LessIrreflexive(x.0);
      forall p | p in a[..|a| - 1]
        ensures Less(p.0, x.0)
      {
        var i :| 0 <= i < |a| - 1 && a[..|a| - 1][i] == p;
        assert Less(a[i].0, a[|a| - 1].0);
      }
    }
  }

  lemma {:induction false} SamePairs(a: seq<(Slice, Slice)>, b: seq<(Slice, Slice)>)
    requires PairsIncrease(a) && PairsIncrease(b) && forall p :: p in a <==> p in b
    ensures a == b
  {
    LastPair(a);
    LastPair(b);
    if a != [] && b != [] {
      var x, y := a[|a| - 1], b[|b| - 1];
      LessTotal(x.0, y.0);
      assert x == y;
      var a', b' := a[..|a| - 1], b[..|b| - 1];
      forall p
        ensures p in a' <==> p in b'
      {
        assert p in a' <==> p in a && p != x;
        assert p in b' <==> p in b && p != y;
      }
      SamePairs(a', b');
      assert a == a' + [x] && b == b' + [y];
    }
  }

  /**
   * Two iterators at the same snapshot show the same rows, whatever writes, flushes, compactions
   * and recoveries happened between the states they were made in.
   */
  lemma ScansAreStable(s: Db, merged: seq<Entry>, s': Db, merged': seq<Entry>, snapshot: nat)
    requires Inv(s) && InternalView(s, merged) && s.floor <= snapshot <= |s.history|
    requires Inv(s') && InternalView(s', merged') && s'.floor <= snapshot && s.history <= s'.history
    ensures Pairs(Table(merged, snapshot)) == Pairs(Table(merged', snapshot))
  {
    var a, b := Pairs(Table(merged, snapshot)), Pairs(Table(merged', snapshot));
    SamePrefix(s.history, s'.history, snapshot);
    ScanIncreases(s, merged, snapshot);
    ScanIncreases(s', merged', snapshot);
    forall p
      ensures p in a <==> p in b
    {
      PairIsRead(s, merged, snapshot, p);
      PairIsRead(s', merged', snapshot, p);
    }
    SamePairs(a, b);
  }

  lemma SamePrefix(h: seq<Entry>, h': seq<Entry>, snapshot: nat)
    requires h <= h' && snapshot <= |h|
    ensures forall key :: Read(h, key, snapshot) == Read(h', key, snapshot)
  {
    assert h[..snapshot] == h'[..snapshot];
  }

  lemma ScanIncreases(s: Db, merged: seq<Entry>, snapshot: nat)
    requires Inv(s) && InternalView(s, merged) && s.floor <= snapshot
    ensures PairsIncrease(Pairs(Table(merged, snapshot)))
  {
    ScanIsContents(s, merged, snapshot, [], []);
  }

  lemma PairIsRead(s: Db, merged: seq<Entry>, snapshot: nat, p: (Slice, Slice))
    requires Inv(s) && InternalView(s, merged) && s.floor <= snapshot
    ensures p in Pairs(Table(merged, snapshot)) <==> Read(s.history, p.0, snapshot) == Some(p.1)
  {
    var table := Table(merged, snapshot);
    ScanIsContents(s, merged, snapshot, p.0, p.1);
    if p in Pairs(table) {
      var r :| 0 <= r < |table| && Pairs(table)[r] == p;
      assert table[r].key == p.0 && table[r].value == p.1;
    }
    if Read(s.history, p.0, snapshot) == Some(p.1) {
      var r :| 0 <= r < |table| && table[r].key == p.0 && table[r].value == p.1;
      assert Pairs(table)[r] == p;
    }
  }

  // ------------------------------------------------------------------ the merge over tables

  function RunsOf(files: seq<File>): (r: seq<seq<Entry>>)
    ensures |r| == |files| && forall i :: 0 <= i < |r| ==> r[i] == files[i].run
  {
    seq(|files|, i requires 0 <= i < |files| => files[i].run)
  }

  /** What MakeInputIterator needs: the tables of a compaction can be merged, and the merge is what DoCompactionWork reads. */
  lemma InputsCanBeMerged(v: Levels, level: nat, in0: seq<File>, in1: seq<File>, merged: seq<Entry>)
    requires FilesOk(v) && Once(v) && level + 1 < |v|
    requires forall f :: f in in0 ==> f in v[level]
    requires forall f :: f in in1 ==> f in v[level + 1]
    requires forall i, j :: 0 <= i < j < |in0 + in1| ==> (in0 + in1)[i] != (in0 + in1)[j]
    ensures IsMerge(merged, in0 + in1) <==> IsMergeOf(merged, RunsOf(in0 + in1))
  {
    var ins, runs := in0 + in1, RunsOf(in0 + in1);
    forall i | 0 <= i < |ins|
      ensures In(v, if ins[i] in in0 then level else level + 1, ins[i]) && FileOk(ins[i])
    {
      assert ins[i] in ins;
      FileIn(ins[i], v[if ins[i] in in0 then level else level + 1]);
    }
    forall i, j, x | 0 <= i < j < |runs| && x in runs[i]
      ensures x !in runs[j]
    {
      assert In(v, if ins[j] in in0 then level else level + 1, ins[j]);
    }
    RunsAreUnion(ins, merged);
  }

  lemma RunsAreUnion(files: seq<File>, merged: seq<Entry>)
    ensures Entries(merged) == Union(files) <==>
              && (forall i :: 0 <= i < |files| ==> Entries(RunsOf(files)[i]) <= Entries(merged))
              && (forall x :: x in merged ==> exists i :: 0 <= i < |files| && x in RunsOf(files)[i])
  {
    if Entries(merged) == Union(files) {
      forall i | 0 <= i < |files|
        ensures Entries(RunsOf(files)[i]) <= Entries(merged)
      {
        assert files[i] in files;
        assert forall e :: e in files[i].run ==> e in Union(files);
      }
      forall x | x in merged
        ensures exists i :: 0 <= i < |files| && x in RunsOf(files)[i]
      {
        assert x in Union(files);
        var f :| f in files && x in f.run;
        var i :| 0 <= i < |files| && files[i] == f;
        assert x in RunsOf(files)[i];
      }
    }
    if (forall i :: 0 <= i < |files| ==> Entries(RunsOf(files)[i]) <= Entries(merged)) &&
       (forall x :: x in merged ==> exists i :: 0 <= i < |files| && x in RunsOf(files)[i]) {
      forall x | x in Union(files)
        ensures x in Entries(merged)
      {
        var f :| f in files && x in f.run;
        var i :| 0 <= i < |files| && files[i] == f;
        assert x in Entries(RunsOf(files)[i]);
      }
      forall x | x in merged
        ensures x in Union(files)
      {
        var i :| 0 <= i < |files| && x in RunsOf(files)[i];
        assert files[i] in files;
      }
    }
  }
}
