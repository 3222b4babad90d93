/** Versions that answer reads like the history does, through flushes and compactions. */
module VersionReads {
  import opened Bytes
  import opened InternalKeys
  import opened Version
  import opened Inputs
  import opened Picking
  import opened Compaction
  import opened Installing
  import opened History

  lemma InStored(v: Levels, l: nat, f: File, e: Entry)
    requires In(v, l, f) && e in f.run
    ensures e in Stored(v)
  {
  }

  lemma StoredSplits(v: Levels, level: nat, in0: seq<File>, in1: seq<File>)
    requires level + 1 < |v|
    requires forall f :: f in in0 ==> f in v[level]
    requires forall f :: f in in1 ==> f in v[level + 1]
    ensures Stored(v) == Union(in0 + in1) + Rest(v, level, in0, in1)
  {
    forall e | e in Stored(v)
      ensures e in Union(in0 + in1) + Rest(v, level, in0, in1)
    {
      var l, f :| 0 <= l < |v| && f in v[l] && e in f.run;
      if !Stays(v, level, in0, in1, l, f) {
        assert f in in0 + in1;
      }
    }
    forall e | e in Union(in0 + in1)
      ensures e in Stored(v)
    {
      var f :| f in in0 + in1 && e in f.run;
      InStored(v, if f in in0 then level else level + 1, f, e);
    }
  }

  lemma StoredReplaced(v: Levels, v': Levels, level: nat, in0: seq<File>, in1: seq<File>, outs: seq<File>)
    requires Replaced(v, v', level, in0, in1, outs)
    ensures Stored(v') == Union(outs) + Rest(v, level, in0, in1)
  {
    Origin(v, v', level, in0, in1, outs);
    forall e | e in Stored(v')
      ensures e in Union(outs) + Rest(v, level, in0, in1)
    {
      var l, f :| 0 <= l < |v'| && f in v'[l] && e in f.run;
      assert In(v', l, f);
    }
    forall e | e in Union(outs) + Rest(v, level, in0, in1)
      ensures e in Stored(v')
    {
      if e in Union(outs) {
        var f :| f in outs && e in f.run;
        InStored(v', level + 1, f, e);
      } else {
        var l, f :| 0 <= l < |v| && f in v[l] && Stays(v, level, in0, in1, l, f) && e in f.run;
        InStored(v', l, f, e);
      }
    }
  }

  lemma {:induction false} FlatUnion(files: seq<File>)
    ensures Entries(Flat(files)) == Union(files)
  {
    if files != [] {
      var n := |files| - 1;
      FlatUnion(files[..n]);
      assert files == files[..n] + [files[n]];
      forall e
        ensures e in Union(files) <==> e in Union(files[..n]) || e in files[n].run
      {
        if e in Union(files) {
          var f :| f in files && e in f.run;
        }
      }
      forall e
        ensures e in Entries(Flat(files)) <==> e in Entries(Flat(files[..n])) || e in files[n].run
      {
      }
    }
  }

  /** `v` holds entries of `h` only, is in shape, and reads like `h` from `floor` on. */
  ghost predicate Faithful(v: Levels, h: seq<Entry>, floor: nat, next: nat)
  {
    && Shape(v, floor, next)
    && Stored(v) <= Entries(h)
    && ReadsAgree(Stored(v), Entries(h), floor)
  }

  /** `merged` is what the merging iterator over the inputs yields. */
  ghost predicate IsMerge(merged: seq<Entry>, files: seq<File>)
  {
    Sorted(merged) && Entries(merged) == Union(files)
  }

  lemma InputsShareNothing(v: Levels, level: nat, in0: seq<File>, in1: seq<File>)
    requires Once(v) && level + 1 < |v|
    requires forall f :: f in in0 ==> f in v[level]
    requires forall f :: f in in1 ==> f in v[level + 1]
    ensures Union(in0 + in1) !! Rest(v, level, in0, in1)
  {
    forall e | e in Union(in0 + in1)
      ensures e !in Rest(v, level, in0, in1)
    {
      var a :| a in in0 + in1 && e in a.run;
      assert if a in in0 then In(v, level, a) else In(v, level + 1, a);
    }
  }

  /** A dropped entry superseded nothing that is left, unless it is replaced by another one. */
  lemma SupersededKept(base: Levels, level: nat, ins: set<Entry>, rest: set<Entry>, kept: set<Entry>, smallest: nat, floor: nat, x: Entry)
    requires Distinct(ins + rest) && Survivors(base, level, ins, kept, smallest) && smallest <= floor
    requires forall d, y :: d in ins && y in rest && y.key == d.key && y.seqno < d.seqno ==>
                              !Obsolete(base, level, d, smallest) || Superseded(ins + rest, d, smallest)
    requires x in kept + rest && Superseded(ins + rest, x, floor)
    ensures Superseded(kept + rest, x, floor)
  {
    hide Obsolete;
    var newest := SomeAnswer(ins + rest, x.key, floor);
    var n := newest.value;
    assert x.seqno < n.seqno <= floor;
    if n in ins && n.seqno <= smallest {
      assert Superseded(ins, x, smallest);
    }
    if n !in kept + rest {
      assert !Superseded(ins, n, smallest) && !Superseded(ins + rest, n, smallest);
      assert Obsolete(base, level, n, smallest);
      ObsoleteIsOld(base, level, n, smallest);
    }
  }

  lemma ObsoleteIsOld(base: Levels, level: nat, d: Entry, smallest: nat)
    requires Obsolete(base, level, d, smallest)
    ensures d.seqno <= smallest
  {
  }

  /** A finished compaction that passes and exposes nothing leaves a version that still reads like the history. */
  lemma CompactionKeepsFaithful(v: Levels, v': Levels, base: Levels, level: nat, in0: seq<File>, in1: seq<File>,
                                merged: seq<Entry>, smallest: nat, outs: seq<File>,
                                h: seq<Entry>, floor: nat, next: nat, next': nat)
    requires Numbered(h) && Faithful(v, h, floor, next)
    requires JobFits(v, base, level, in0, in1) && Replaced(v, v', level, in0, in1, outs)
    requires NonePassed(v, level, in0, smallest) && NoneExposed(v, base, level, in0, in1, smallest)
    requires IsMerge(merged, in0 + in1) && smallest < MAX_SEQUENCE
    requires Flat(outs) == Kept(base, level, merged, smallest, |merged|)
    requires Outputs(outs, in0, in1) && FreeNumbers(v, in0, in1, outs, next') && next <= next'
    requires smallest <= floor
    ensures Faithful(v', h, floor, next')
  {
    hide Shape, NonePassed, Flat, Kept, JobFits, Replaced, Outputs, Union, Rest, Stored, FreeNumbers, Numbered, Obsolete, Superseded, ReadsAgree, StillSuperseded;
    ShapeParts(v, floor, next);
    JobParts(v, base, level, in0, in1);
    var ins, rest, kept := Union(in0 + in1), Rest(v, level, in0, in1), Union(outs);
    StoredSplits(v, level, in0, in1);
    StoredReplaced(v, v', level, in0, in1, outs);
    InputsShareNothing(v, level, in0, in1);
    FlatUnion(outs);
    DistinctHistory(h);
    KeptExactly(base, level, merged, smallest);
    StillSupersededIs(v, v', base, level, ins, rest, kept, smallest, floor);
    ReplacedShape(v, v', base, level, in0, in1, outs, floor, smallest, next, next');
    CompactionPreservesReads(base, level, merged, rest, smallest);
    assert !Exposes(base, level, ins, rest, smallest);
    ReadsChain(Stored(v'), Stored(v), Entries(h), smallest, floor);
  }

  lemma ShapeParts(v: Levels, floor: nat, next: nat)
    requires Shape(v, floor, next)
    ensures FilesOk(v) && Once(v) && Recency(v, floor)
  {
  }

  lemma JobParts(v: Levels, base: Levels, level: nat, in0: seq<File>, in1: seq<File>)
    requires JobFits(v, base, level, in0, in1)
    ensures level + 1 < |v|
    ensures forall f :: f in in0 ==> f in v[level]
    ensures forall f :: f in in1 ==> f in v[level + 1]
  {
  }

  lemma StillSupersededIs(v: Levels, v': Levels, base: Levels, level: nat, ins: set<Entry>, rest: set<Entry>, kept: set<Entry>,
                          smallest: nat, floor: nat)
    requires Stored(v) == ins + rest && Stored(v') == kept + rest && smallest <= floor
    requires Distinct(ins + rest) && Survivors(base, level, ins, kept, smallest)
    requires forall d, y :: d in ins && y in rest && y.key == d.key && y.seqno < d.seqno ==>
                              !Obsolete(base, level, d, smallest) || Superseded(ins + rest, d, smallest)
    ensures StillSuperseded(v, v', floor)
  {
    hide Superseded, Obsolete, Survivors, Distinct, Stored;
    forall x | x in Stored(v') && Superseded(Stored(v), x, floor)
      ensures Superseded(Stored(v'), x, floor)
    {
      SupersededKept(base, level, ins, rest, kept, smallest, floor, x);
    }
  }

  /** Agreement from `smallest` on, followed by agreement from `floor` on. */
  lemma ReadsChain(a: set<Entry>, b: set<Entry>, c: set<Entry>, smallest: nat, floor: nat)
    requires ReadsAgree(a, b, smallest) && ReadsAgree(b, c, floor) && smallest <= floor
    ensures ReadsAgree(a, c, floor)
  {
    hide Sees;
    forall key, snapshot, r, r' | floor <= snapshot && Sees(a, key, snapshot, r) && Sees(c, key, snapshot, r')
      ensures Outcome(r) == Outcome(r')
    {
      var between := SomeAnswer(b, key, snapshot);
    }
  }

  lemma OneMoved(v: Levels, floor: nat, next: nat, level: nat, f: File)
    requires Shape(v, floor, next) && In(v, level, f)
    ensures f in [f] && Outputs([f], [f], []) && FreeNumbers(v, [f], [], [f], next)
  {
    FileIn(f, v[level]);
    assert f in [f] + [];
  }

  /** Moving a table that passes nothing to the next level changes no read. */
  lemma MoveKeepsFaithful(v: Levels, v': Levels, level: nat, f: File, h: seq<Entry>, floor: nat, smallest: nat, next: nat)
    requires Faithful(v, h, floor, next) && GoodInputs(v, level, [f], [])
    requires NonePassed(v, level, [f], smallest) && smallest <= floor
    requires Replaced(v, v', level, [f], [], [f])
    ensures Faithful(v', h, floor, next)
  {
    hide NonePassed, Recency, FilesOk, AllOk, KeySorted, Once, Connected, TouchesHull, InOrder, Clear, ReadsAgree;
    PickedFits(v, floor, next, level, [f], []);
    OneMoved(v, floor, next, level, f);
    assert [f] + [] == [f];
    StoredSplits(v, level, [f], []);
    StoredReplaced(v, v', level, [f], [], [f]);
    ReplacedShape(v, v', v, level, [f], [], [f], floor, smallest, next, next);
  }

  /** Adding the table `f` to `level`. */
  ghost predicate Added(v: Levels, v': Levels, level: nat, f: File)
  {
    && |v'| == |v| && level < |v|
    && (forall l :: 0 <= l < |v| && l != level ==> v'[l] == v[l])
    && (forall g :: g in v'[level] <==> g in v[level] || g == f)
    && (1 <= level ==> InOrder(v'[level]))
  }

  /** The place PickLevelForMemTableOutput chooses: nothing on the way down overlaps the table. */
  ghost predicate Lands(v: Levels, level: nat, f: File)
  {
    level < |v| && (0 < level ==> forall l, g :: 0 <= l <= level && g in v[l] ==> Apart(f, g))
  }

  lemma FlushKeepsShape(v: Levels, v': Levels, level: nat, f: File, floor: nat, next: nat)
    requires Shape(v, floor, next) && FileOk(f) && next <= f.number
    requires After(Entries(f.run), Stored(v))
    requires Added(v, v', level, f) && Lands(v, level, f)
    ensures Shape(v', floor, f.number + 1)
  {
    hide Recency, Once, After, Lands, InOrder, KeySorted, Stored;
    FlushKeepsRecency(v, v', level, f, floor);
    FlushKeepsOnce(v, v', level, f);
    FlushKeepsOk(v, v', level, f);
    forall l: nat, a | In(v', l, a)
      ensures In(v, l, a) || (l == level && a == f)
    {
    }
    forall a, b | a in v'[0] && b in v'[0] && a.number == b.number
      ensures a == b
    {
      assert In(v', 0, a) && In(v', 0, b);
    }
  }

  lemma FlushKeepsOk(v: Levels, v': Levels, level: nat, f: File)
    requires FilesOk(v) && FileOk(f) && Added(v, v', level, f) && Lands(v, level, f)
    ensures forall l :: 0 <= l < |v'| ==> AllOk(v'[l])
    ensures forall l :: 1 <= l < |v'| ==> KeySorted(v'[l])
  {
    forall l | 0 <= l < |v'|
      ensures AllOk(v'[l])
    {
      forall i | 0 <= i < |v'[l]|
        ensures FileOk(v'[l][i])
      {
        assert v'[l][i] in v'[l];
        if v'[l][i] in v[l] { FileIn(v'[l][i], v[l]); }
      }
    }
    forall l | 1 <= l < |v'|
      ensures KeySorted(v'[l])
    {
      if l == level {
        forall a, b | a in v'[l] && b in v'[l] && a != b
          ensures Beside(a, b)
        {
          if a != f && b != f { SortedIsBeside(v[l], a, b); } else { ApartIsBeside(f, if a == f then b else a); }
        }
        BesideIsSorted(v'[l]);
      }
    }
  }

  lemma FlushKeepsOnce(v: Levels, v': Levels, level: nat, f: File)
    requires Once(v) && After(Entries(f.run), Stored(v)) && Added(v, v', level, f)
    ensures Once(v')
  {
    forall l: nat, a, m: nat, b, e | In(v', l, a) && In(v', m, b) && e in a.run && e in b.run
      ensures l == m && a == b
    {
      if In(v, l, a) { InStored(v, l, a, e); }
      if In(v, m, b) { InStored(v, m, b, e); }
      assert a == f || b == f ==> e in Entries(f.run);
    }
  }

  lemma SupersededGrows(small: set<Entry>, big: set<Entry>, x: Entry, floor: nat)
    requires small <= big && Superseded(small, x, floor)
    ensures Superseded(big, x, floor)
  {
  }

  lemma NewerGrows(f: File, g: File, small: set<Entry>, big: set<Entry>, floor: nat)
    requires small <= big && Newer(f, g, small, floor)
    ensures Newer(f, g, big, floor)
  {
  }

  lemma FlushKeepsRecency(v: Levels, v': Levels, level: nat, f: File, floor: nat)
    requires FilesOk(v) && Recency(v, floor) && FileOk(f)
    requires forall l: nat, a :: In(v, l, a) ==> a.number < f.number
    requires After(Entries(f.run), Stored(v))
    requires Added(v, v', level, f) && Lands(v, level, f)
    ensures Recency(v', floor)
  {
    hide Superseded, FilesOk, Stored, After, Apart, Newer;
    AllLevels(v);
    StoredAdded(v, v', level, f);
    forall l: nat, a, m: nat, b | In(v', l, a) && In(v', m, b) && Above(l, a, m, b)
      ensures Newer(a, b, Stored(v'), floor)
    {
      if In(v, l, a) && In(v, m, b) {
        NewerGrows(a, b, Stored(v), Stored(v'), floor);
      } else if !In(v, l, a) {
        assert l == level && a == f && In(v, m, b);
        NewTableIsNewer(v, f, m, b, Stored(v'), floor);
      } else {
        assert m == level && b == f && l < level;
        FileIn(a, v[l]);
        assert Apart(f, a);
        ApartIsNewer([a, f], f, a, Stored(v'), floor);
      }
    }
  }

  /** A flushed memtable: the history grows by what it held. */
  lemma FlushKeepsFaithful(v: Levels, v': Levels, level: nat, f: File, h: seq<Entry>, n: nat, floor: nat, next: nat)
    requires Numbered(h) && n <= |h| && Faithful(v, h[..n], floor, next)
    requires FileOk(f) && next <= f.number && Entries(f.run) == Entries(h[n..])
    requires Added(v, v', level, f) && Lands(v, level, f)
    ensures Faithful(v', h, floor, f.number + 1)
  {
    var newer, older := Entries(f.run), Entries(h[..n]);
    assert After(newer, older) by {
      forall e, x | e in newer && x in older
        ensures e.seqno > x.seqno
      {
        var i :| 0 <= i < |h[n..]| && h[n..][i] == e;
        var j :| 0 <= j < |h[..n]| && h[..n][j] == x;
        assert h[n + i] == e && h[j] == x;
      }
    }
    FlushKeepsShape(v, v', level, f, floor, next);
    assert h == h[..n] + h[n..];
    assert Entries(h) == newer + older;
    DistinctHistory(h);
    AgreeWithNewer(Stored(v), older, floor, newer);
    StoredAdded(v, v', level, f);
  }

  lemma StoredAdded(v: Levels, v': Levels, level: nat, f: File)
    requires Added(v, v', level, f)
    ensures Stored(v') == Entries(f.run) + Stored(v)
  {
    forall e | e in Stored(v')
      ensures e in Entries(f.run) + Stored(v)
    {
      var l, g :| 0 <= l < |v'| && g in v'[l] && e in g.run;
      if !(l == level && g == f) { InStored(v, l, g, e); }
    }
    forall e | e in Entries(f.run) + Stored(v)
      ensures e in Stored(v')
    {
      if e in Entries(f.run) {
        InStored(v', level, f, e);
      } else {
        var l, g :| 0 <= l < |v| && g in v[l] && e in g.run;
        InStored(v', l, g, e);
      }
    }
  }

  /** A flush in the middle of a compaction does not disturb the pinned inputs. */
  lemma FlushKeepsFit(v: Levels, v': Levels, base: Levels, level: nat, in0: seq<File>, in1: seq<File>, j: nat, f: File, smallest: nat)
    requires FilesOk(v) && JobFits(v, base, level, in0, in1) && Connected(in0 + in1)
    requires NonePassed(v, level, in0, smallest) && NoneExposed(v, base, level, in0, in1, smallest)
    requires FileOk(f) && After(Entries(f.run), Stored(v))
    requires Added(v, v', j, f) && Lands(v, j, f)
    ensures JobFits(v', base, level, in0, in1)
    ensures NonePassed(v', level, in0, smallest) && NoneExposed(v', base, level, in0, in1, smallest)
  {
    hide Newer, Stored, After, Superseded, Obsolete, FilesOk, Lands, Rest, Union;
    StoredAdded(v, v', j, f);
    forall a, g | a in in0 && g in v'[level] && g !in in0
      ensures Newer(g, a, Stored(v'), smallest) && (level == 0 ==> Newer(g, a, {}, 0))
    {
      if g in v[level] {
        NewerGrows(g, a, Stored(v), Stored(v'), smallest);
      } else {
        NewTableIsNewer(v, f, level, a, Stored(v'), smallest);
        NewTableIsNewer(v, f, level, a, {}, 0);
      }
    }
    if level + 1 <= j {
      MissesHull(v, level, in0, in1, j, f);
      if j == level + 1 { LandsClear(v, level, in0, in1, j, f); }
    }
    forall d, x | d in Union(in0 + in1) && x in Rest(v', level, in0, in1) && x.key == d.key && x.seqno < d.seqno
      ensures !Obsolete(base, level, d, smallest) || Superseded(Stored(v'), d, smallest)
    {
      OldRest(v, v', level, in0, in1, j, f, d, x);
      if Superseded(Stored(v), d, smallest) { SupersededGrows(Stored(v), Stored(v'), d, smallest); }
    }
  }

  lemma OldRest(v: Levels, v': Levels, level: nat, in0: seq<File>, in1: seq<File>, j: nat, f: File, d: Entry, x: Entry)
    requires level + 1 < |v| && Added(v, v', j, f) && After(Entries(f.run), Stored(v))
    requires forall a :: a in in0 ==> a in v[level]
    requires forall a :: a in in1 ==> a in v[level + 1]
    requires d in Union(in0 + in1) && x in Rest(v', level, in0, in1) && x.seqno < d.seqno
    ensures x in Rest(v, level, in0, in1)
  {
    StoredSplits(v, level, in0, in1);
    assert forall e :: e in f.run ==> e in Entries(f.run);
    var l, g :| 0 <= l < |v'| && g in v'[l] && Stays(v', level, in0, in1, l, g) && x in g.run;
    assert Stays(v, level, in0, in1, l, g);
  }

  lemma NewTableIsNewer(v: Levels, f: File, l: nat, a: File, stored: set<Entry>, floor: nat)
    requires In(v, l, a) && After(Entries(f.run), Stored(v))
    ensures Newer(f, a, stored, floor)
  {
    forall e, x | e in f.run && x in a.run ensures e.seqno > x.seqno {
      InStored(v, l, a, x);
      assert e in Entries(f.run);
    }
  }

  /** A table that lands on the next level has all inputs on one side. */
  lemma LandsClear(v: Levels, level: nat, in0: seq<File>, in1: seq<File>, j: nat, f: File)
    requires FilesOk(v) && j == level + 1 < |v| && !TouchesHull(in0 + in1, f)
    requires forall a :: a in in0 ==> a in v[level]
    requires forall a :: a in in1 ==> a in v[level + 1]
    requires FileOk(f) && Lands(v, j, f)
    ensures Clear(in0 + in1, f)
  {
    var ins := in0 + in1;
    FileIn(f, [f]);
    if ins != [] {
      var lo := ins[0];
      assert lo in ins;
      forall a | a in ins
        ensures if Less(f.largest.user, lo.smallest.user) then ILess(f.largest, a.smallest) else ILess(a.largest, f.smallest)
      {
        InputOk(v, level, in0, in1, lo);
        Order(lo.largest.user, f.smallest.user, f.largest.user);
        Order(f.largest.user, lo.smallest.user, lo.largest.user);
        Order(lo.largest.user, f.largest.user, lo.smallest.user);
      }
    }
  }

  lemma InputOk(v: Levels, level: nat, in0: seq<File>, in1: seq<File>, a: File)
    requires FilesOk(v) && level + 1 < |v| && a in in0 + in1
    requires forall a :: a in in0 ==> a in v[level]
    requires forall a :: a in in1 ==> a in v[level + 1]
    ensures FileOk(a) && !Less(a.largest.user, a.smallest.user)
  {
    if a in in0 { FileIn(a, v[level]); } else { FileIn(a, v[level + 1]); }
  }

  lemma MissesHull(v: Levels, level: nat, in0: seq<File>, in1: seq<File>, j: nat, f: File)
    requires FilesOk(v) && level + 1 <= j < |v| && Connected(in0 + in1)
    requires forall a :: a in in0 ==> a in v[level]
    requires forall a :: a in in1 ==> a in v[level + 1]
    requires FileOk(f) && Lands(v, j, f)
    ensures !TouchesHull(in0 + in1, f)
  {
    FileIn(f, [f]);
    var ins := in0 + in1;
    if TouchesHull(ins, f) {
      var k := HullMeeting(ins, f, v, level);
      var h :| h in ins && h.Covers(k);
      assert Apart(f, h);
      ApartShareNothing(f, h, k);
    }
  }

  /** Writing out one memtable after the other as level-0 tables. */
  function WithLevel0(v: Levels, files: seq<File>): Levels
    requires v != []
  {
    v[0 := v[0] + files]
  }

  /** Tables written in turn from `parts`, with increasing numbers from `next` on. */
  ghost predicate TablesOf(files: seq<File>, parts: seq<seq<Entry>>, next: nat)
  {
    && |files| == |parts|
    && (forall i :: 0 <= i < |files| ==> FileOk(files[i]) && Entries(files[i].run) == Entries(parts[i]) && next <= files[i].number)
    && (forall i, j :: 0 <= i < j < |files| ==> files[i].number < files[j].number)
  }

  /** The same tables, level 0 perhaps listed in another order. */
  ghost predicate SameTables(v: Levels, v': Levels)
  {
    && |v| == |v'| && v != []
    && (forall l :: 1 <= l < |v| ==> v'[l] == v[l])
    && (forall f :: f in v'[0] <==> f in v[0])
  }

  lemma SameTablesFaithful(v: Levels, v': Levels, h: seq<Entry>, floor: nat, next: nat)
    requires Faithful(v, h, floor, next) && SameTables(v, v')
    ensures Faithful(v', h, floor, next)
  {
    hide ReadsAgree, FileOk, KeySorted, Newer;
    assert forall l: nat, f :: In(v', l, f) ==> In(v, l, f);
    forall i | 0 <= i < |v'[0]|
      ensures FileOk(v'[0][i])
    {
      assert v'[0][i] in v'[0];
      FileIn(v'[0][i], v[0]);
    }
    forall e
      ensures e in Stored(v') <==> e in Stored(v)
    {
      if e in Stored(v') {
        var l, f :| 0 <= l < |v'| && f in v'[l] && e in f.run;
        InStored(v, l, f, e);
      }
      if e in Stored(v) {
        var l, f :| 0 <= l < |v| && f in v[l] && e in f.run;
        InStored(v', l, f, e);
      }
    }
    assert Stored(v') == Stored(v);
  }

  lemma LastPart(parts: seq<seq<Entry>>, h: seq<Entry>, n: nat) returns (k: nat)
    requires n <= |h| && parts != [] && Concat(parts) == h[n..]
    ensures n <= k <= |h| && parts[|parts| - 1] == h[k..]
    ensures h[..k][..n] == h[..n] && Concat(parts[..|parts| - 1]) == h[..k][n..]
  {
    var m := |parts| - 1;
    k := |h| - |parts[m]|;
    assert h[n..] == Concat(parts[..m]) + parts[m];
    assert h[n..][..k - n] == Concat(parts[..m]) && h[n..][k - n..] == parts[m];
  }

  lemma WithOneMore(v: Levels, files: seq<File>)
    requires v != [] && files != []
    ensures Added(WithLevel0(v, files[..|files| - 1]), WithLevel0(v, files), 0, files[|files| - 1])
  {
    assert files == files[..|files| - 1] + [files[|files| - 1]];
  }

  /** The next free number after the tables `files`. */
  function NextAfter(files: seq<File>, next: nat): nat
  {
    if files == [] then next else files[|files| - 1].number + 1
  }

  /** Recovery: the tables written from the logs extend the history by what the logs held. */
  lemma {:induction false} ReplayKeepsFaithful(v: Levels, h: seq<Entry>, n: nat, floor: nat, next: nat, files: seq<File>, parts: seq<seq<Entry>>)
    requires Numbered(h) && n <= |h| && Faithful(v, h[..n], floor, next)
    requires TablesOf(files, parts, next) && Concat(parts) == h[n..]
    ensures Faithful(WithLevel0(v, files), h, floor, NextAfter(files, next))
    decreases |files|
  {
    if files == [] {
      assert h[..n] == h;
      assert v[0] + files == v[0];
      assert WithLevel0(v, files) == v;
    } else {
      var m := |files| - 1;
      var k := LastPart(parts, h, n);
      ReplayKeepsFaithful(v, h[..k], n, floor, next, files[..m], parts[..m]);
      WithOneMore(v, files);
      FlushKeepsFaithful(WithLevel0(v, files[..m]), WithLevel0(v, files), 0, files[m], h, k, floor, NextAfter(files[..m], next));
    }
  }
}
