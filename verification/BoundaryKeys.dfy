/** User keys split over two tables of a level: when they cannot arise, and compactions that need not fear them. */
module BoundaryKeys {
  import opened Bytes
  import opened InternalKeys
  import opened Version
  import opened Inputs
  import opened Picking
  import opened Compaction
  import opened Installing
  import opened History
  import opened VersionReads
  import opened Builder
  import opened Manifests
  import opened Engine
  import opened Runs

  // ------------------------------------------------------------ outputs that split no user key

  /** No user key is split over two outputs. */
  ghost predicate NoSplit(outs: seq<File>)
  {
    forall i, j :: 0 <= i < j < |outs| ==> Apart(outs[i], outs[j])
  }

  /** With no snapshot older than an input entry, at most one entry of a user key is kept. */
  lemma {:induction false} OneSurvivorPerKey(v: Levels, level: nat, merged: seq<Entry>, smallest: nat, n: nat)
    requires n <= |merged| && Sorted(merged)
    requires forall i :: 0 <= i < |merged| ==> merged[i].seqno <= smallest
    ensures KeysIncrease(Kept(v, level, merged, smallest, n))
  {
    hide Dropped;
    if 0 < n {
      OneSurvivorPerKey(v, level, merged, smallest, n - 1);
      if !Dropped(v, level, merged, smallest, n - 1) {
        hide Kept;
        KeptStep(v, level, merged, smallest, n - 1);
        NewKeyIsKept(v, level, merged, smallest, n - 1);
        KeptSoFarIsLess(v, level, merged, smallest, n - 1);
      }
    }
  }

  lemma KeptStep(v: Levels, level: nat, merged: seq<Entry>, smallest: nat, n: nat)
    requires n < |merged| && !Dropped(v, level, merged, smallest, n)
    ensures Kept(v, level, merged, smallest, n + 1) == Kept(v, level, merged, smallest, n) + [merged[n]]
  {
  }

  lemma NewKeyIsKept(v: Levels, level: nat, merged: seq<Entry>, smallest: nat, n: nat)
    requires n < |merged| && !Dropped(v, level, merged, smallest, n) && forall i :: 0 <= i < |merged| ==> merged[i].seqno <= smallest
    ensures 0 < n ==> merged[n - 1].key != merged[n].key
  {
  }

  lemma KeptSoFarIsLess(v: Levels, level: nat, merged: seq<Entry>, smallest: nat, n: nat)
    requires n < |merged| && Sorted(merged) && (0 < n ==> merged[n - 1].key != merged[n].key)
    ensures forall i :: 0 <= i < |Kept(v, level, merged, smallest, n)| ==> Less(Kept(v, level, merged, smallest, n)[i].key, merged[n].key)
  {
    hide Kept, Dropped;
    KeptAre(v, level, merged, smallest, n);
    var before := Kept(v, level, merged, smallest, n);
    forall i | 0 <= i < |before|
      ensures Less(before[i].key, merged[n].key)
    {
      assert before[i] in before;
      var k :| 0 <= k < n && merged[k] == before[i];
      NextKeyDiffers(merged, k, n);
    }
  }

  ghost predicate KeysIncrease(run: seq<Entry>)
  {
    forall i, j :: 0 <= i < j < |run| ==> Less(run[i].key, run[j].key)
  }

  lemma NextKeyDiffers(run: seq<Entry>, k: nat, n: nat)
    requires Sorted(run) && k < n < |run| && run[n - 1].key != run[n].key
    ensures Less(run[k].key, run[n].key)
  {
    assert ILess(run[n - 1].Ikey(), run[n].Ikey());
    assert k < n - 1 ==> ILess(run[k].Ikey(), run[n - 1].Ikey());
    Order(run[k].key, run[n - 1].key, run[n].key);
  }

  lemma {:induction false} InFlat(files: seq<File>, i: nat, k: nat) returns (d: nat)
    requires i < |files| && k < |files[i].run|
    ensures |Flat(files[..i])| <= d < |Flat(files[..i + 1])| <= |Flat(files)|
    ensures Flat(files)[d] == files[i].run[k]
  {
    hide Flat;
    var n := |files| - 1;
    FlatLast(files, n);
    FlatLast(files, i);
    assert files[..n + 1] == files;
    if i < n {
      assert files[..n][..i] == files[..i] && files[..n][..i + 1] == files[..i + 1];
      d := InFlat(files[..n], i, k);
    } else {
      d := |Flat(files[..n])| + k;
    }
  }

  lemma FlatLast(files: seq<File>, i: nat)
    requires i < |files|
    ensures Flat(files[..i + 1]) == Flat(files[..i]) + files[i].run
  {
    assert files[..i + 1][..i] == files[..i];
  }

  lemma {:induction false} FlatMonotone(files: seq<File>, i: nat, j: nat)
    requires i <= j <= |files|
    ensures |Flat(files[..i])| <= |Flat(files[..j])|
    decreases j - i
  {
    if i < j {
      assert files[..j][..j - 1] == files[..j - 1];
      FlatMonotone(files, i, j - 1);
    }
  }

  /** So when no snapshot is held, no user key is split over two outputs. */
  lemma NoSplitWithoutSnapshots(v: Levels, level: nat, merged: seq<Entry>, smallest: nat, outs: seq<File>)
    requires Sorted(merged) && AllOk(outs)
    requires forall i :: 0 <= i < |merged| ==> merged[i].seqno <= smallest
    requires Flat(outs) == Kept(v, level, merged, smallest, |merged|)
    ensures NoSplit(outs)
  {
    OneSurvivorPerKey(v, level, merged, smallest, |merged|);
    forall i, j | 0 <= i < j < |outs|
      ensures Apart(outs[i], outs[j])
    {
      var a := InFlat(outs, i, |outs[i].run| - 1);
      var b := InFlat(outs, j, 0);
      FlatMonotone(outs, i + 1, j);
    }
  }

  /** The inputs of a compaction started while no snapshot is held are all at or below its smallest snapshot. */
  lemma NoSnapshotsAtStart(s: Db, s': Db, level: nat, in0: seq<File>, in1: seq<File>)
    requires Inv(s) && StartCompaction(s, s', level, in0, in1) && s.snapshots == []
    ensures AllOld(s'.running.value)
  {
    hide Describes, RunningInv, Shape, ReadsAgree, Connected;
    StoredSplits(s.version, level, in0, in1);
    forall e | e in Union(in0 + in1)
      ensures e.seqno <= s.lastSequence
    {
      assert e in Entries(s.history[..s.flushed]);
      var j :| 0 <= j < s.flushed && s.history[..s.flushed][j] == e;
      assert (s.history + s.pending)[j] == e;
    }
  }

  /** Such a compaction can always be installed: it splits no user key. */
  lemma NoSplitInRun(r: Running, merged: seq<Entry>, outs: seq<File>, first: nat, next: nat)
    requires AllOld(r) && IsMerge(merged, r.in0 + r.in1) && Written(outs, first, next)
    requires Flat(outs) == Kept(r.base, r.level, merged, r.smallest, |merged|)
    ensures NoSplit(outs)
  {
    forall i | 0 <= i < |merged|
      ensures merged[i].seqno <= r.smallest
    {
      assert merged[i] in Entries(merged);
    }
    NoSplitWithoutSnapshots(r.base, r.level, merged, r.smallest, outs);
  }

  // ------------------------------------------------------------ inputs that end between user keys

  /** The table after `i` starts with the user key table `i` ends with. */
  predicate SplitKey(files: seq<File>, i: nat)
    requires i < |files|
  {
    i + 1 < |files| && files[i + 1].smallest.user == files[i].largest.user
  }

  /** The user key an input ends with goes on in the next table of its level, which is not an input. */
  ghost predicate Continued(files: seq<File>, ins: seq<File>)
  {
    exists i :: 0 <= i < |files| && files[i] in ins && SplitKey(files, i) && files[i + 1] !in ins
  }

  /** A user key that reaches from an input into a later table that is none is continued somewhere between. */
  lemma {:induction false} ReachesOut(files: seq<File>, ins: seq<File>, i: nat, j: nat, key: Slice)
    requires AllOk(files) && KeySorted(files) && i < j < |files| && files[i] in ins && files[j] !in ins
    requires !Less(files[i].largest.user, key) && !Less(key, files[j].smallest.user)
    ensures Continued(files, ins)
    decreases j - i
  {
    var f, n := files[i], files[i + 1];
    assert ILess(f.largest, n.smallest);
    KeysInRange(n, 0);
    Order(key, f.largest.user, n.smallest.user);
    if n in ins {
      Order(key, n.smallest.user, n.largest.user);
      ReachesOut(files, ins, i + 1, j, key);
    } else {
      if i + 1 < j { SmallestIncrease(files, i + 1, j); }
      Order(n.smallest.user, files[j].smallest.user, key);
      Order(f.largest.user, n.smallest.user, key);
      assert SplitKey(files, i);
    }
  }

  /** A table of a sorted level with an older entry of a user key comes later. */
  lemma OlderIsLater(files: seq<File>, i: nat, j: nat, x: Entry, e: Entry)
    requires AllOk(files) && KeySorted(files) && i < |files| && j < |files| && i != j
    requires x in files[i].run && e in files[j].run && e.key == x.key && e.seqno < x.seqno
    ensures i < j
  {
    EntryInRange(files[i], x);
    EntryInRange(files[j], e);
    IOrder(e.Ikey(), files[j].largest, files[i].smallest);
    IOrder(e.Ikey(), files[i].smallest, x.Ikey());
    Order(e.key, e.key, e.key);
  }

  lemma OlderMeansContinued(files: seq<File>, ins: seq<File>, f: File, g: File, x: Entry, e: Entry)
    requires AllOk(files) && KeySorted(files) && f in files && g in files && f in ins && g !in ins
    requires x in f.run && e in g.run && e.key == x.key && e.seqno < x.seqno
    ensures Continued(files, ins)
  {
    var i :| 0 <= i < |files| && files[i] == f;
    var j :| 0 <= j < |files| && files[j] == g;
    OlderIsLater(files, i, j, x, e);
    Holder(f, files, x);
    Holder(g, files, e);
    ReachesOut(files, ins, i, j, x.key);
  }

  /** The user keys the inputs end with are not continued outside. */
  ghost predicate EndsBetweenKeys(v: Levels, level: nat, in0: seq<File>, in1: seq<File>)
  {
    level + 1 < |v| && (1 <= level ==> !Continued(v[level], in0)) && !Continued(v[level + 1], in1)
  }

  lemma SupersededLater(stored: set<Entry>, x: Entry, floor: nat, floor': nat)
    requires Superseded(stored, x, floor) && floor <= floor'
    ensures Superseded(stored, x, floor')
  {
  }

  /** An older entry left behind by an input that ends between user keys can only be one nobody would read. */
  lemma LeftIsNotOlder(v: Levels, floor: nat, level: nat, in0: seq<File>, in1: seq<File>, smallest: nat,
                       a: File, d: Entry, l: nat, g: File, x: Entry)
    requires FilesOk(v) && Recency(v, floor) && floor <= smallest && GoodInputs(v, level, in0, in1)
    requires EndsBetweenKeys(v, level, in0, in1)
    requires a in in0 + in1 && d in a.run && Stays(v, level, in0, in1, l, g) && x in g.run
    requires x.key == d.key && x.seqno < d.seqno && l <= level + 1
    ensures Superseded(Stored(v), d, smallest)
  {
    hide FilesOk, Recency, Continued, Connected, Superseded, AllOk, KeySorted;
    AllLevels(v);
    var m := if a in in0 then level else level + 1;
    Holder(a, v[m], d);
    Holder(g, v[l], x);
    CoversMeet(a, g, d.key);
    if l == m && 1 <= l {
      OlderMeansContinued(v[l], if l == level then in0 else in1, a, g, d, x);
    }
    assert m == level && (l == level == 0 || l == level + 1) ==> TouchesHull(in0, g);
    assert Above(l, g, m, a);
    NewerUnlessSuperseded(v, floor, l, g, x, m, a, d);
    SupersededLater(Stored(v), d, floor, smallest);
  }

  lemma NewerUnlessSuperseded(v: Levels, floor: nat, l: nat, f: File, e: Entry, m: nat, g: File, x: Entry)
    requires Recency(v, floor) && In(v, l, f) && In(v, m, g) && Above(l, f, m, g)
    requires e in f.run && x in g.run && e.key == x.key
    ensures e.seqno > x.seqno || Superseded(Stored(v), x, floor)
  {
    assert Newer(f, g, Stored(v), floor);
  }

  /** A compaction whose inputs end between user keys lets nothing resurface. */
  lemma UnsplitNeedsNoGuard(v: Levels, floor: nat, level: nat, in0: seq<File>, in1: seq<File>, smallest: nat)
    requires FilesOk(v) && Recency(v, floor) && Distinct(Stored(v)) && Once(v) && floor <= smallest
    requires GoodInputs(v, level, in0, in1) && EndsBetweenKeys(v, level, in0, in1)
    ensures NothingResurfaces(v, level, in0, in1, smallest)
  {
    hide FilesOk, Recency, Continued, Connected, Superseded, BaseLevel, Distinct, Once;
    AllLevels(v);
    forall f, g, e, x | f in in0 && g in v[level] && g !in in0 && e in g.run && x in f.run && e.key == x.key
      ensures e.seqno > x.seqno || Superseded(Stored(v), x, smallest)
    {
      OnceDiffers(v, level, g, e, f, x);
      if e.seqno < x.seqno { LeftIsNotOlder(v, floor, level, in0, in1, smallest, f, x, level, g, e); }
    }
    forall d, x | d in Union(in0 + in1) && x in Rest(v, level, in0, in1) && x.key == d.key && x.seqno < d.seqno
      ensures !Obsolete(v, level, d, smallest) || Superseded(Stored(v), d, smallest)
    {
      var a :| a in in0 + in1 && d in a.run;
      var l, g :| 0 <= l < |v| && g in v[l] && Stays(v, level, in0, in1, l, g) && x in g.run;
      if l <= level + 1 {
        LeftIsNotOlder(v, floor, level, in0, in1, smallest, a, d, l, g, x);
      } else {
        DeeperIsNotObsolete(v, level, l, g, x, d, smallest);
      }
    }
  }

  lemma DeeperIsNotObsolete(v: Levels, level: nat, l: nat, g: File, x: Entry, d: Entry, smallest: nat)
    requires FilesOk(v) && level + 2 <= l && In(v, l, g) && x in g.run && x.key == d.key
    ensures !Obsolete(v, level, d, smallest)
  {
    Holder(g, v[l], x);
    var i :| 0 <= i < |v[l]| && v[l][i] == g;
  }

  /** Entries of one user key in two tables have different sequence numbers. */
  lemma OnceDiffers(v: Levels, l: nat, g: File, e: Entry, f: File, x: Entry)
    requires Distinct(Stored(v)) && Once(v) && In(v, l, f) && In(v, l, g) && f != g
    requires e in g.run && x in f.run && e.key == x.key
    ensures e.seqno != x.seqno
  {
    InStored(v, l, g, e);
    InStored(v, l, f, x);
  }

  // ------------------------------------------------------------ runs without snapshots at compactions

  /** Below level 0 no two tables of a level share a user key. */
  ghost predicate LevelsApart(v: Levels)
  {
    forall l: nat, f, g :: 1 <= l && In(v, l, f) && In(v, l, g) && f != g ==> Apart(f, g)
  }

  lemma ApartIsUnsplit(v: Levels, l: nat, ins: seq<File>)
    requires LevelsApart(v) && FilesOk(v) && 1 <= l < |v|
    ensures !Continued(v[l], ins)
  {
    forall i | 0 <= i < |v[l]| && v[l][i] in ins && SplitKey(v[l], i)
      ensures v[l][i + 1] in ins
    {
      var f, g := v[l][i], v[l][i + 1];
      assert In(v, l, f) && In(v, l, g);
      FileIn(f, v[l]);
      FileIn(g, v[l]);
      if f != g {
        Order(g.largest.user, f.smallest.user, f.largest.user);
        Order(f.largest.user, f.largest.user, g.largest.user);
      }
    }
  }

  /** A compaction or a move is started only when no snapshot is held; all else is as in the code. */
  ghost predicate FreeStep(s: Db, s': Db)
  {
    || OtherStep(s, s')
    || (s.snapshots == [] && exists level, in0, in1 :: StartCompaction(s, s', level, in0, in1))
    || (exists level, f :: MoveTable(s, s', level, f))
  }

  /** What such runs keep: no level is split, and a compaction under way will split nothing. */
  ghost predicate Unsplit(s: Db)
  {
    && LevelsApart(s.version)
    && (s.running.Some? ==> AllOld(s.running.value) && RunningApart(s.version, s.running.value))
  }

  /** Every input entry is visible at every snapshot the compaction has to keep. */
  ghost predicate AllOld(r: Running)
  {
    forall e :: e in Union(r.in0 + r.in1) ==> e.seqno <= r.smallest
  }

  ghost predicate RunningApart(v: Levels, r: Running)
  {
    && r.level + 1 < |v|
    && (forall a, g :: a in r.in0 + r.in1 && g in v[r.level + 1] && g !in r.in1 ==> Apart(a, g))
  }

  lemma AddedApart(v: Levels, v': Levels, level: nat, f: File)
    requires LevelsApart(v) && Added(v, v', level, f) && Lands(v, level, f)
    ensures LevelsApart(v')
  {
    forall l: nat, a, b | 1 <= l && In(v', l, a) && In(v', l, b) && a != b
      ensures Apart(a, b)
    {
      if In(v, l, a) && In(v, l, b) {
      } else if !In(v, l, a) {
        assert a == f && l == level && b in v[level];
        assert Apart(f, b);
      } else {
        assert b == f && l == level && a in v[level];
        assert Apart(f, a);
      }
    }
  }

  lemma AddedRunningApart(v: Levels, v': Levels, j: nat, f: File, r: Running)
    requires RunningApart(v, r) && Added(v, v', j, f) && Lands(v, j, f)
    requires forall a :: a in r.in0 ==> a in v[r.level]
    requires forall a :: a in r.in1 ==> a in v[r.level + 1]
    ensures RunningApart(v', r)
  {
    forall a, g | a in r.in0 + r.in1 && g in v'[r.level + 1] && g !in r.in1
      ensures Apart(a, g)
    {
      if g !in v[r.level + 1] { assert Apart(f, a); }
    }
  }

  /** Replacing inputs by outputs that split no user key. */
  lemma ReplacedApart(v: Levels, v': Levels, base: Levels, r: Running, outs: seq<File>)
    requires LevelsApart(v) && FilesOk(v) && RunningApart(v, r) && JobFits(v, base, r.level, r.in0, r.in1)
    requires Replaced(v, v', r.level, r.in0, r.in1, outs) && Outputs(outs, r.in0, r.in1)
    requires NoSplit(outs)
    ensures LevelsApart(v')
  {
    hide NoSplit, JobFits, FilesOk, RunningApart, Outputs, Apart;
    Origin(v, v', r.level, r.in0, r.in1, outs);
    forall l: nat, f, g | 1 <= l && In(v', l, f) && In(v', l, g) && f != g
      ensures Apart(f, g)
    {
      if Stays(v, r.level, r.in0, r.in1, l, f) {
        if !Stays(v, r.level, r.in0, r.in1, l, g) { OutputApart(v, base, r, outs, g, f); }
      } else if Stays(v, r.level, r.in0, r.in1, l, g) {
        OutputApart(v, base, r, outs, f, g);
      } else {
        UnsplitPair(outs, f, g);
      }
    }
  }

  lemma UnsplitPair(outs: seq<File>, f: File, g: File)
    requires NoSplit(outs) && f in outs && g in outs && f != g
    ensures Apart(f, g)
  {
    var i :| 0 <= i < |outs| && outs[i] == f;
    var j :| 0 <= j < |outs| && outs[j] == g;
    assert if i < j then Apart(outs[i], outs[j]) else Apart(outs[j], outs[i]);
  }

  lemma OutputApart(v: Levels, base: Levels, r: Running, outs: seq<File>, o: File, g: File)
    requires FilesOk(v) && RunningApart(v, r) && JobFits(v, base, r.level, r.in0, r.in1) && Outputs(outs, r.in0, r.in1)
    requires o in outs && g in v[r.level + 1] && g !in r.in1
    ensures Apart(o, g) && Apart(g, o)
  {
    hide FilesOk, AllOk, TouchesHull;
    InputsOk(v, base, r.level, r.in0, r.in1);
    AllLevels(v);
    OutsOk(outs, r.in0, r.in1);
    FileIn(o, outs);
    FileIn(g, v[r.level + 1]);
    var ins := r.in0 + r.in1;
    var first, last := o.run[0], o.run[|o.run| - 1];
    var a :| a in ins && first in a.run;
    var b :| b in ins && last in b.run;
    Holder(a, ins, first);
    Holder(b, ins, last);
    FileIn(a, ins);
    FileIn(b, ins);
    assert Apart(a, g) && Apart(b, g) && Clear(ins, g);
    SameSide(a, b, g);
    Order(g.largest.user, a.smallest.user, o.smallest.user);
    Order(o.largest.user, b.largest.user, g.smallest.user);
  }

  lemma OutsOk(outs: seq<File>, in0: seq<File>, in1: seq<File>)
    requires Outputs(outs, in0, in1)
    ensures AllOk(outs)
  {
  }

  /** Apart from `g` and on one side of it: both before or both after it. */
  lemma SameSide(a: File, b: File, g: File)
    requires Apart(a, g) && Apart(b, g) && !Less(a.largest.user, a.smallest.user) && !Less(b.largest.user, b.smallest.user)
    requires !Less(g.largest.user, g.smallest.user)
    requires (ILess(a.largest, g.smallest) && ILess(b.largest, g.smallest)) || (ILess(g.largest, a.smallest) && ILess(g.largest, b.smallest))
    ensures (Less(a.largest.user, g.smallest.user) && Less(b.largest.user, g.smallest.user))
         || (Less(g.largest.user, a.smallest.user) && Less(g.largest.user, b.smallest.user))
  {
    Order(a.largest.user, g.smallest.user, g.largest.user);
    Order(b.largest.user, g.smallest.user, g.largest.user);
    Order(g.largest.user, a.smallest.user, a.largest.user);
    Order(g.largest.user, b.smallest.user, b.largest.user);
    Order(a.largest.user, g.largest.user, a.smallest.user);
    Order(b.largest.user, g.largest.user, b.smallest.user);
    Order(g.smallest.user, a.largest.user, g.smallest.user);
    Order(g.smallest.user, b.largest.user, g.smallest.user);
  }

  lemma FlushStaysUnsplit(s: Db, s': Db, level: nat, f: File)
    requires Inv(s) && Unsplit(s) && FlushImm(s, s', level, f)
    ensures Unsplit(s')
  {
    hide Describes, Faithful, JobFits, NonePassed, NoneExposed, Edited, LevelsApart, RunningApart, AllOld, FileOk, Lands, UniqueNumbers, FilesOk, Shape, Once;
    if s.imm.value == [] {
      EditNothing(s.version, s'.version);
    } else {
      VersionFacts(s);
      LandsInRange(s.version, level, f);
      AllLevels(s.version);
      EditAdds(s.version, s'.version, level, f);
      AddedApart(s.version, s'.version, level, f);
      if s.running.Some? {
        var r := s.running.value;
        JobParts(s.version, r.base, r.level, r.in0, r.in1);
        AddedRunningApart(s.version, s'.version, level, f, r);
      }
    }
  }

  lemma FinishStaysUnsplit(s: Db, s': Db, merged: seq<Entry>, outs: seq<File>, first: nat, next: nat)
    requires Inv(s) && Unsplit(s) && FinishCompaction(s, s', merged, outs, first, next)
    ensures Unsplit(s')
  {
    hide Describes, Faithful, JobFits, NonePassed, NoneExposed, Edited, LevelsApart, RunningApart, AllOld, UniqueNumbers, FilesOk, Shape, Flat, Kept, Written, NoSplit, Union, Once, IsMerge;
    var r := s.running.value;
    VersionFacts(s);
    EditReplaces(s.version, s'.version, r, outs);
    OutputsOf(r, merged, outs, first, next);
    NoSplitInRun(r, merged, outs, first, next);
    ReplacedApart(s.version, s'.version, r.base, r, outs);
  }

  lemma OutputsOf(r: Running, merged: seq<Entry>, outs: seq<File>, first: nat, next: nat)
    requires IsMerge(merged, r.in0 + r.in1) && Written(outs, first, next)
    requires Flat(outs) == Kept(r.base, r.level, merged, r.smallest, |merged|)
    ensures Outputs(outs, r.in0, r.in1)
  {
    FlatUnion(outs);
    KeptAre(r.base, r.level, merged, r.smallest, |merged|);
    forall x | x in Union(outs) ensures x in Entries(merged) {}
    OutputsAre(outs, first, next, merged, r.in0, r.in1);
  }

  lemma RecoverStaysUnsplit(s: Db, s': Db, recovered: Levels, numbers: seq<nat>, parts: seq<seq<Entry>>, files: seq<File>)
    requires Inv(s) && Unsplit(s) && CrashAndRecover(s, s', recovered, numbers, parts, files)
    ensures Unsplit(s')
  {
    hide Inv, Describes, Edited, TablesOf, ReplayOf, LiveLogs, Saved, Accumulate, NewManifest, Ordered;
    RecoverKeeps(s, s', recovered, numbers, parts, files);
    RecoveredTables(s.version, s'.version, files);
    forall l: nat, f, g | 1 <= l && In(s'.version, l, f) && In(s'.version, l, g) && f != g
      ensures Apart(f, g)
    {
      assert In(s.version, l, f) && In(s.version, l, g);
    }
  }

  /** Whatever is picked from a version without split keys, nothing resurfaces. */
  lemma PickedIsHarmless(s: Db, level: nat, in0: seq<File>, in1: seq<File>)
    requires Inv(s) && LevelsApart(s.version) && GoodInputs(s.version, level, in0, in1)
    ensures NothingResurfaces(s.version, level, in0, in1, Oldest(s))
    ensures forall a, g :: a in in0 + in1 && g in s.version[level + 1] && g !in in1 ==> Apart(a, g)
  {
    var v := s.version;
    StoredDistinct(s);
    ApartPicked(v, level, in0, in1);
    UnsplitNeedsNoGuard(v, s.floor, level, in0, in1, Oldest(s));
  }

  lemma StoredDistinct(s: Db)
    requires Inv(s)
    ensures FilesOk(s.version) && Recency(s.version, s.floor) && Once(s.version) && Distinct(Stored(s.version)) && s.floor <= Oldest(s)
  {
    hide Describes, RunningInv, FilesOk, Recency, Once, ReadsAgree, UniqueNumbers, Stored;
    var h := s.history[..s.flushed];
    forall i | 0 <= i < |h| ensures h[i].seqno == i + 1 { assert (s.history + s.pending)[i] == h[i]; }
    DistinctHistory(h);
  }

  lemma ApartPicked(v: Levels, level: nat, in0: seq<File>, in1: seq<File>)
    requires FilesOk(v) && LevelsApart(v) && GoodInputs(v, level, in0, in1)
    ensures EndsBetweenKeys(v, level, in0, in1)
    ensures forall a, g :: a in in0 + in1 && g in v[level + 1] && g !in in1 ==> Apart(a, g)
  {
    hide Continued, FilesOk, Connected;
    if 1 <= level { ApartIsUnsplit(v, level, in0); }
    ApartIsUnsplit(v, level + 1, in1);
    forall a, g | a in in0 + in1 && g in v[level + 1] && g !in in1
      ensures Apart(a, g)
    {
      if a in in1 {
        assert In(v, level + 1, a) && In(v, level + 1, g);
      } else {
        assert !TouchesHull(in0, g);
      }
    }
  }

  lemma StartStaysUnsplit(s: Db, s': Db, level: nat, in0: seq<File>, in1: seq<File>)
    requires Inv(s) && Unsplit(s) && s.snapshots == [] && StartCompaction(s, s', level, in0, in1)
    ensures NothingResurfaces(s.version, level, in0, in1, Oldest(s)) && Unsplit(s')
  {
    hide Inv, NothingResurfaces, LevelsApart, AllOld, GoodInputs;
    GoodLevel(s.version, level, in0, in1);
    PickedIsHarmless(s, level, in0, in1);
    NoSnapshotsAtStart(s, s', level, in0, in1);
  }

  lemma GoodLevel(v: Levels, level: nat, in0: seq<File>, in1: seq<File>)
    requires GoodInputs(v, level, in0, in1)
    ensures level + 1 < |v|
  {
  }

  lemma MoveStaysUnsplit(s: Db, s': Db, level: nat, f: File)
    requires Inv(s) && Unsplit(s) && MoveTable(s, s', level, f)
    ensures NonePassed(s.version, level, [f], Oldest(s)) && Unsplit(s')
  {
    hide Inv, LevelsApart, GoodInputs, Edited, FilesOk, Once, UniqueNumbers, JobFits, NonePassed, NoneExposed, Shape, Outputs, FreeNumbers, CountersOf;
    var v := s.version;
    PickedIsHarmless(s, level, [f], []);
    VersionFacts(s);
    AllLevels(v);
    MovedIsInput(v, level, f);
    OneMoved(v, s.floor, s.nextFile, level, f);
    EditMoves(v, s'.version, level, f);
    PickedFits(v, s.floor, s.nextFile, level, [f], []);
    ReplacedApart(v, s'.version, v, Running(v, level, [f], [], 0), [f]);
  }

  lemma OtherStaysUnsplit(s: Db, s': Db)
    requires Inv(s) && Unsplit(s) && OtherStep(s, s')
    ensures Unsplit(s')
  {
    hide Inv, AppendLog, ApplyBatch, SwitchMemTable, FlushImm, FinishCompaction, TakeSnapshot, ReleaseSnapshot, CrashAndRecover, LevelsApart, RunningApart, AllOld;
    if ops :| AppendLog(s, s', ops) { SameVersion(s, s'); }
    else if ApplyBatch(s, s') { SameVersion(s, s'); }
    else if SwitchMemTable(s, s') { SameVersion(s, s'); }
    else if level, f :| FlushImm(s, s', level, f) { FlushStaysUnsplit(s, s', level, f); }
    else if merged, outs, first, next :| FinishCompaction(s, s', merged, outs, first, next) {
      FinishStaysUnsplit(s, s', merged, outs, first, next);
    }
    else if TakeSnapshot(s, s') { SameVersion(s, s'); }
    else if i :| ReleaseSnapshot(s, s', i) { SameVersion(s, s'); }
    else if recovered, numbers, parts, files :| CrashAndRecover(s, s', recovered, numbers, parts, files) {
      RecoverStaysUnsplit(s, s', recovered, numbers, parts, files);
    }
  }

  /** Steps that leave the tables alone. */
  lemma SameVersion(s: Db, s': Db)
    requires (exists ops :: AppendLog(s, s', ops)) || ApplyBatch(s, s') || SwitchMemTable(s, s') || TakeSnapshot(s, s')
          || exists i :: ReleaseSnapshot(s, s', i)
    ensures s'.version == s.version && s'.running == s.running
  {
  }

  lemma FreeStepKeeps(s: Db, s': Db)
    requires Inv(s) && Unsplit(s) && FreeStep(s, s')
    ensures Next(s, s') && Unsplit(s')
  {
    hide Inv, Unsplit, OtherStep, StartCompaction, MoveTable, NothingResurfaces, NonePassed;
    if OtherStep(s, s') {
      OtherStaysUnsplit(s, s');
    } else if s.snapshots == [] && exists level, in0, in1 :: StartCompaction(s, s', level, in0, in1) {
      var level, in0, in1 :| StartCompaction(s, s', level, in0, in1);
      StartStaysUnsplit(s, s', level, in0, in1);
    } else {
      var level, f :| MoveTable(s, s', level, f);
      MoveStaysUnsplit(s, s', level, f);
    }
  }

  ghost predicate FreeRun(states: seq<Db>)
  {
    && states != [] && Init(states[0])
    && forall i :: 0 <= i < |states| - 1 ==> FreeStep(states[i], states[i + 1])
  }

  /**
   * A database whose compactions are all started while no snapshot is held needs no guard: whatever
   * the code picks is harmless, and no user key is ever split over two tables of a sorted level.
   */
  lemma {:induction false} FreeRunsAreRuns(states: seq<Db>, n: nat)
    requires FreeRun(states) && 0 < n <= |states|
    ensures Run(states[..n]) && Unsplit(states[n - 1])
  {
    hide Init, FreeStep, Next, Inv, Unsplit;
    if n == 1 {
      FreshIsUnsplit(states[0]);
    } else {
      FreeRunsAreRuns(states, n - 1);
      RunInv(states[..n - 1], n - 2);
      FreeStepKeeps(states[n - 2], states[n - 1]);
      forall i | 0 <= i < n - 1
        ensures Next(states[..n][i], states[..n][i + 1])
      {
        if i < n - 2 { assert Next(states[..n - 1][i], states[..n - 1][i + 1]); }
      }
    }
  }

  lemma FreshIsUnsplit(s: Db)
    requires Init(s)
    ensures Unsplit(s)
  {
    EmptyVersion(0);
  }
}
