/** What installing a flushed table or a finished compaction keeps true of a version. */
module Installing {
  import opened Bytes
  import opened InternalKeys
  import opened Version
  import opened Inputs
  import opened Picking
  import opened Compaction

  /** The user-key ranges of `f` and `g` do not meet. */
  predicate Apart(f: File, g: File)
  {
    Less(f.largest.user, g.smallest.user) || Less(g.largest.user, f.smallest.user)
  }

  /** The internal-key ranges do not meet; a user key may end one table and start the other. */
  predicate Beside(f: File, g: File)
  {
    ILess(f.largest, g.smallest) || ILess(g.largest, f.smallest)
  }

  /** No entry is in two tables. */
  ghost predicate Once(v: Levels)
  {
    forall l: nat, f, m: nat, g, e :: In(v, l, f) && In(v, m, g) && e in f.run && e in g.run ==> l == m && f == g
  }

  /** A version that finds the newest entry at every snapshot from `floor` on; file numbers are below `next`. */
  ghost predicate Shape(v: Levels, floor: nat, next: nat)
  {
    && FilesOk(v) && Recency(v, floor) && Once(v) && UniqueNumbers(v)
    && (forall l: nat, f :: In(v, l, f) ==> f.number < next)
  }

  /** The version an edit leads to: `outs` replace `in0` and `in1`. */
  ghost predicate Replaced(v: Levels, v': Levels, level: nat, in0: seq<File>, in1: seq<File>, outs: seq<File>)
  {
    && |v'| == |v| && level + 1 < |v|
    && (forall l :: 0 <= l < |v| && l != level && l != level + 1 ==> v'[l] == v[l])
    && (forall f :: f in v'[level] <==> f in v[level] && f !in in0)
    && (forall f :: f in v'[level + 1] <==> (f in v[level + 1] && f !in in1) || f in outs)
    && InOrder(v'[level]) && InOrder(v'[level + 1])
  }

  /** All inputs lie before `g`, or all of them after it. */
  ghost predicate Clear(ins: seq<File>, g: File)
  {
    (forall a :: a in ins ==> ILess(a.largest, g.smallest)) || (forall a :: a in ins ==> ILess(g.largest, a.smallest))
  }

  /** Why inputs pinned in `base` can still be replaced in the current version `v`. */
  ghost predicate JobFits(v: Levels, base: Levels, level: nat, in0: seq<File>, in1: seq<File>)
  {
    && level + 1 < |v| && |base| == |v|
    && (forall f :: f in in0 ==> f in v[level])
    && (forall f :: f in in1 ==> f in v[level + 1])
    && (level == 0 ==> forall f, g :: f in in0 && g in v[0] && g !in in0 ==> Newer(g, f, {}, 0))
    && (forall g :: g in v[level + 1] && g !in in1 ==> Clear(in0 + in1, g))
    && (forall l, g :: level + 2 <= l < |v| && g in v[l] && g !in base[l] ==> !TouchesHull(in0 + in1, g))
  }

  /** The entries of some tables. */
  ghost function Union(files: seq<File>): set<Entry>
  {
    set f, e | f in files && e in f.run :: e
  }

  /** What the version holds outside the inputs. */
  ghost function Rest(v: Levels, level: nat, in0: seq<File>, in1: seq<File>): set<Entry>
  {
    set l, f, e | 0 <= l < |v| && f in v[l] && Stays(v, level, in0, in1, l, f) && e in f.run :: e
  }

  /**
   * No entry moved down from `level` leaves an older one of its user key behind on `level`, where
   * the search would find it first; entries no snapshot from `smallest` on can see do not matter.
   */
  ghost predicate NonePassed(v: Levels, level: nat, in0: seq<File>, smallest: nat)
  {
    level < |v| && forall f, g :: f in in0 && g in v[level] && g !in in0 ==> Newer(g, f, Stored(v), smallest)
  }

  /** No deletion marker that will be dropped as obsolete hides an older entry outside the inputs. */
  ghost predicate NoneExposed(v: Levels, base: Levels, level: nat, in0: seq<File>, in1: seq<File>, smallest: nat)
  {
    forall d, x :: d in Union(in0 + in1) && x in Rest(v, level, in0, in1) && x.key == d.key && x.seqno < d.seqno ==>
                     !Obsolete(base, level, d, smallest) || Superseded(Stored(v), d, smallest)
  }

  /** What is known of compaction outputs. */
  ghost predicate Outputs(outs: seq<File>, in0: seq<File>, in1: seq<File>)
  {
    && AllOk(outs)
    && (forall f, g :: f in outs && g in outs && f != g ==> Beside(f, g) && f.number != g.number)
    && (forall f, e :: f in outs && e in f.run ==> exists g :: g in in0 + in1 && e in g.run)
  }

  lemma FileIn(f: File, files: seq<File>)
    requires AllOk(files) && f in files
    ensures FileOk(f) && !Less(f.largest.user, f.smallest.user)
    ensures f.run[0] in f.run && f.run[|f.run| - 1] in f.run
  {
    var i :| 0 <= i < |files| && files[i] == f;
    KeysInRange(f, 0);
  }

  /** A table with an entry of `e.key` covers it. */
  lemma Holder(f: File, files: seq<File>, e: Entry)
    requires AllOk(files) && f in files && e in f.run
    ensures f.Covers(e.key)
  {
    FileIn(f, files);
    var k :| 0 <= k < |f.run| && f.run[k] == e;
    KeysInRange(f, k);
  }

  /** Tables apart from each other share no user key. */
  lemma ApartShareNothing(f: File, g: File, user: Slice)
    requires Apart(f, g)
    ensures !(f.Covers(user) && g.Covers(user))
  {
    Order(user, f.largest.user, g.smallest.user);
    Order(f.largest.user, g.smallest.user, user);
    Order(user, g.largest.user, f.smallest.user);
    Order(g.largest.user, f.smallest.user, user);
  }

  lemma ApartIsNewer(files: seq<File>, f: File, g: File, stored: set<Entry>, floor: nat)
    requires AllOk(files) && f in files && g in files && Apart(f, g)
    ensures Newer(g, f, stored, floor)
  {
    forall e, x | e in g.run && x in f.run
      ensures e.key != x.key
    {
      Holder(g, files, e);
      Holder(f, files, x);
      ApartShareNothing(f, g, e.key);
    }
  }

  lemma ApartIsBeside(f: File, g: File)
    requires Apart(f, g)
    ensures Beside(f, g) && Beside(g, f)
  {
  }

  /** An entry lies in the internal-key range of its table. */
  lemma EntryInRange(f: File, e: Entry)
    requires FileOk(f) && e in f.run
    ensures !ILess(e.Ikey(), f.smallest) && !ILess(f.largest, e.Ikey()) && !ILess(f.largest, f.smallest)
  {
    var k :| 0 <= k < |f.run| && f.run[k] == e;
    KeysInRange(f, k);
    IOrder(f.smallest, e.Ikey(), f.largest);
  }

  lemma BesideShareNothing(f: File, g: File, e: Entry)
    requires FileOk(f) && FileOk(g) && Beside(f, g) && e in f.run
    ensures e !in g.run
  {
    if e in g.run {
      EntryInRange(f, e);
      EntryInRange(g, e);
      IOrder(f.largest, g.smallest, e.Ikey());
      IOrder(g.largest, f.smallest, e.Ikey());
    }
  }

  /** Tables in order, pairwise beside each other, are sorted as FindFile needs. */
  lemma BesideIsSorted(files: seq<File>)
    requires AllOk(files) && InOrder(files)
    requires forall f, g :: f in files && g in files && f != g ==> Beside(f, g)
    ensures KeySorted(files)
  {
    forall i, j | 0 <= i < j < |files|
      ensures ILess(files[i].largest, files[j].smallest)
    {
      var f, g := files[i], files[j];
      hide InOrder, AllOk, FileOk, Beside, Before, ILess;
      assert f in files && g in files && FileOk(g) by { FileIn(g, files); }
      InOrderAt(files, i, j);
      if f != g { AfterIsAfter(f, g); } else { NotBeforeItself(f); }
    }
  }

  lemma InOrderAt(files: seq<File>, i: nat, j: nat)
    requires InOrder(files) && i < j < |files|
    ensures Before(files[i], files[j])
  {
  }

  lemma NotBeforeItself(f: File)
    ensures !Before(f, f)
  {
    IOrder(f.smallest, f.smallest, f.smallest);
  }

  lemma AfterIsAfter(f: File, g: File)
    requires FileOk(g) && Before(f, g) && Beside(f, g)
    ensures ILess(f.largest, g.smallest)
  {
    hide ILess;
    IOrder(f.smallest, g.smallest, f.smallest);
    KeysInRange(g, 0);
    IOrder(g.smallest, g.largest, f.smallest);
    IOrder(g.largest, f.smallest, g.smallest);
  }

  lemma SortedIsBeside(files: seq<File>, f: File, g: File)
    requires KeySorted(files) && f in files && g in files && f != g
    ensures Beside(f, g)
  {
    var i :| 0 <= i < |files| && files[i] == f;
    var j :| 0 <= j < |files| && files[j] == g;
    assert if i < j then ILess(files[i].largest, files[j].smallest) else ILess(files[j].largest, files[i].smallest);
  }

  /** Outputs stay on the side of `g` the inputs are on. */
  lemma OutputsClear(outs: seq<File>, in0: seq<File>, in1: seq<File>, o: File, g: File)
    requires Outputs(outs, in0, in1) && AllOk(in0 + in1) && o in outs && Clear(in0 + in1, g)
    ensures Beside(o, g) && Beside(g, o)
  {
    FileIn(o, outs);
    var ins := in0 + in1;
    var first, last := o.run[0], o.run[|o.run| - 1];
    var a :| a in ins && first in a.run;
    var b :| b in ins && last in b.run;
    FileIn(a, ins);
    FileIn(b, ins);
    EntryInRange(a, first);
    EntryInRange(b, last);
    IOrder(last.Ikey(), b.largest, g.smallest);
    IOrder(g.largest, a.smallest, first.Ikey());
  }

  /** Freshly picked inputs fit the version they were picked from. */
  lemma PickedFits(v: Levels, floor: nat, next: nat, level: nat, in0: seq<File>, in1: seq<File>)
    requires Shape(v, floor, next) && GoodInputs(v, level, in0, in1)
    ensures JobFits(v, v, level, in0, in1)
  {
    if level == 0 {
      forall f, g | f in in0 && g in v[0] && g !in in0
        ensures Newer(g, f, {}, 0)
      {
        assert !TouchesHull(in0, g);
        ApartIsNewer(v[0], f, g, {}, 0);
      }
    }
    forall g | g in v[level + 1] && g !in in1
      ensures Clear(in0 + in1, g)
    {
      LeftIsClear(v, level, in0, in1, g);
    }
  }

  /** A table of the next level that misses the range of `in0` has all inputs on one side. */
  lemma LeftIsClear(v: Levels, level: nat, in0: seq<File>, in1: seq<File>, g: File)
    requires FilesOk(v) && GoodInputs(v, level, in0, in1)
    requires g in v[level + 1] && g !in in1
    ensures Clear(in0 + in1, g)
  {
    assert !TouchesHull(in0, g);
    var lo := in0[0];
    assert lo in in0;
    if Less(g.largest.user, lo.smallest.user) {
      AllAfter(v, level, in0, g, lo);
      forall a | a in in0 + in1
        ensures ILess(g.largest, a.smallest)
      {
        if a in in1 { TouchedIsAfter(v, level, in0, in1, g, a); }
      }
    } else {
      forall a | a in in0 + in1
        ensures ILess(a.largest, g.smallest)
      {
        if a in in1 { TouchedIsBefore(v, level, in0, in1, g, a); }
      }
    }
  }

  lemma AllAfter(v: Levels, level: nat, in0: seq<File>, g: File, lo: File)
    requires FilesOk(v) && level + 1 < |v| && g in v[level + 1] && !TouchesHull(in0, g)
    requires (forall h :: h in in0 ==> h in v[level]) && lo in in0 && Less(g.largest.user, lo.smallest.user)
    ensures forall h :: h in in0 ==> Less(g.largest.user, h.smallest.user)
  {
    FileIn(lo, v[level]);
    FileIn(g, v[level + 1]);
    Order(lo.largest.user, g.smallest.user, g.largest.user);
    Order(g.largest.user, lo.smallest.user, lo.largest.user);
    Order(lo.largest.user, g.largest.user, lo.smallest.user);
  }

  lemma TouchedIsAfter(v: Levels, level: nat, in0: seq<File>, in1: seq<File>, g: File, a: File)
    requires FilesOk(v) && GoodInputs(v, level, in0, in1) && g in v[level + 1] && g !in in1 && a in in1
    requires forall h :: h in in0 ==> Less(g.largest.user, h.smallest.user)
    ensures ILess(g.largest, a.smallest)
  {
    SortedIsBeside(v[level + 1], g, a);
    FileIn(a, v[level + 1]);
    FileIn(g, v[level + 1]);
    var h :| h in in0 && !Less(a.largest.user, h.smallest.user);
    Order(a.largest.user, g.smallest.user, g.largest.user);
    Order(a.largest.user, g.largest.user, h.smallest.user);
  }

  lemma TouchedIsBefore(v: Levels, level: nat, in0: seq<File>, in1: seq<File>, g: File, a: File)
    requires FilesOk(v) && GoodInputs(v, level, in0, in1) && g in v[level + 1] && g !in in1 && a in in1
    requires forall h :: h in in0 ==> Less(h.largest.user, g.smallest.user)
    ensures ILess(a.largest, g.smallest)
  {
    SortedIsBeside(v[level + 1], g, a);
    FileIn(a, v[level + 1]);
    FileIn(g, v[level + 1]);
    var h :| h in in0 && !Less(h.largest.user, a.smallest.user);
    Order(g.smallest.user, g.largest.user, a.smallest.user);
    Order(h.largest.user, g.smallest.user, a.smallest.user);
  }

  lemma CoversMeet(h: File, g: File, k: Slice)
    requires h.Covers(k) && g.Covers(k)
    ensures !Less(g.largest.user, h.smallest.user) && !Less(h.largest.user, g.smallest.user)
  {
    Order(h.smallest.user, k, g.largest.user);
    Order(g.smallest.user, k, h.largest.user);
  }

  lemma HullMeeting(ins: seq<File>, g: File, v: Levels, level: nat) returns (k: Slice)
    requires FilesOk(v) && level + 1 < |v|
    requires forall f :: f in ins ==> f in v[level] || f in v[level + 1]
    requires FileOk(g) && !Less(g.largest.user, g.smallest.user)
    requires TouchesHull(ins, g)
    ensures InHull(ins, k) && g.Covers(k)
  {
    var a, b :| a in ins && b in ins && !Less(g.largest.user, a.smallest.user) && !Less(b.largest.user, g.smallest.user);
    if a in v[level] { FileIn(a, v[level]); } else { FileIn(a, v[level + 1]); }
    Order(a.smallest.user, g.smallest.user, a.smallest.user);
    if Less(g.smallest.user, a.smallest.user) {
      k := a.smallest.user;
    } else {
      k := g.smallest.user;
    }
    Order(k, k, k);
  }

  /** The output numbers are taken by no table that stays. */
  ghost predicate FreeNumbers(v: Levels, in0: seq<File>, in1: seq<File>, outs: seq<File>, next: nat)
  {
    && (forall f :: f in outs ==> f.number < next)
    && (forall f, l: nat, g :: f in outs && In(v, l, g) && g.number == f.number ==> g in in0 || g in in1)
  }

  lemma InputsOk(v: Levels, base: Levels, level: nat, in0: seq<File>, in1: seq<File>)
    requires FilesOk(v) && JobFits(v, base, level, in0, in1)
    ensures AllOk(in0) && AllOk(in1) && AllOk(in0 + in1)
  {
    forall i | 0 <= i < |in0| ensures FileOk(in0[i]) { assert in0[i] in in0; FileIn(in0[i], v[level]); }
    forall i | 0 <= i < |in1| ensures FileOk(in1[i]) { assert in1[i] in in1; FileIn(in1[i], v[level + 1]); }
  }

  /** A table of `v` that is not an input. */
  ghost predicate Stays(v: Levels, level: nat, in0: seq<File>, in1: seq<File>, l: nat, f: File)
  {
    In(v, l, f) && !(l == level && f in in0) && !(l == level + 1 && f in in1)
  }

  /** Every table of `v'` stayed from `v` or is an output. */
  lemma Origin(v: Levels, v': Levels, level: nat, in0: seq<File>, in1: seq<File>, outs: seq<File>)
    requires Replaced(v, v', level, in0, in1, outs)
    ensures forall l: nat, f :: In(v', l, f) <==> Stays(v, level, in0, in1, l, f) || (l == level + 1 && f in outs)
  {
  }

  lemma ReplacedOk(v: Levels, v': Levels, base: Levels, level: nat, in0: seq<File>, in1: seq<File>, outs: seq<File>)
    requires FilesOk(v) && JobFits(v, base, level, in0, in1) && Replaced(v, v', level, in0, in1, outs)
    requires Outputs(outs, in0, in1)
    ensures forall l :: 0 <= l < |v'| ==> AllOk(v'[l])
    ensures forall l :: 1 <= l < |v'| ==> KeySorted(v'[l])
  {
    forall l | 0 <= l < |v'|
      ensures AllOk(v'[l])
    {
      forall i | 0 <= i < |v'[l]|
        ensures FileOk(v'[l][i])
      {
        var f := v'[l][i];
        assert f in v'[l];
        if f in v[l] { FileIn(f, v[l]); } else { FileIn(f, outs); }
      }
    }
    forall l | 1 <= l < |v'|
      ensures KeySorted(v'[l])
    {
      if l == level || l == level + 1 {
        ReplacedBeside(v, v', base, level, in0, in1, outs, l);
        BesideIsSorted(v'[l]);
      }
    }
  }

  lemma ReplacedBeside(v: Levels, v': Levels, base: Levels, level: nat, in0: seq<File>, in1: seq<File>, outs: seq<File>, l: nat)
    requires FilesOk(v) && JobFits(v, base, level, in0, in1) && Replaced(v, v', level, in0, in1, outs)
    requires Outputs(outs, in0, in1) && 1 <= l < |v'| && (l == level || l == level + 1)
    ensures forall f, g :: f in v'[l] && g in v'[l] && f != g ==> Beside(f, g)
  {
    hide FilesOk, AllOk, KeySorted, Clear, Beside;
    InputsOk(v, base, level, in0, in1);
    AllLevels(v);
    forall f, g | f in v'[l] && g in v'[l] && f != g
      ensures Beside(f, g)
    {
      if f in outs && l == level + 1 {
        if g !in outs { OutputsClear(outs, in0, in1, f, g); }
      } else if g in outs && l == level + 1 {
        OutputsClear(outs, in0, in1, g, f);
      } else {
        SortedIsBeside(v[l], f, g);
      }
    }
  }

  /** An output is as new as the inputs it comes from, against what lies below its level. */
  lemma OutputNewer(v: Levels, floor: nat, level: nat, in0: seq<File>, in1: seq<File>, o: File, m: nat, g: File)
    requires Recency(v, floor) && level + 1 < m && In(v, m, g)
    requires forall f :: f in in0 ==> f in v[level]
    requires forall f :: f in in1 ==> f in v[level + 1]
    requires forall e :: e in o.run ==> exists a :: a in in0 + in1 && e in a.run
    ensures Newer(o, g, Stored(v), floor)
  {
    forall e, x | e in o.run && x in g.run && e.key == x.key
      ensures e.seqno > x.seqno || Superseded(Stored(v), x, floor)
    {
      var a :| a in in0 + in1 && e in a.run;
      if a in in0 { assert Above(level, a, m, g); } else { assert Above(level + 1, a, m, g); }
    }
  }

  /** What lies above an output's level is newer than the output, if nothing older was left there. */
  lemma OutputOlder(v: Levels, floor: nat, level: nat, in0: seq<File>, in1: seq<File>, o: File, l: nat, f: File, smallest: nat)
    requires Recency(v, floor) && level + 1 < |v| && l <= level && Stays(v, level, in0, in1, l, f)
    requires forall a :: a in in0 ==> a in v[level]
    requires forall a :: a in in1 ==> a in v[level + 1]
    requires NonePassed(v, level, in0, smallest) && smallest <= floor
    requires forall e :: e in o.run ==> exists a :: a in in0 + in1 && e in a.run
    ensures Newer(f, o, Stored(v), floor)
  {
    forall e, x | e in f.run && x in o.run && e.key == x.key
      ensures e.seqno > x.seqno || Superseded(Stored(v), x, floor)
    {
      var a :| a in in0 + in1 && x in a.run;
      if a in in1 {
        assert Above(l, f, level + 1, a);
      } else if l < level {
        assert Above(l, f, level, a);
      } else {
        assert Newer(f, a, Stored(v), smallest);
      }
    }
  }

  /** What was superseded in `v` still is, as far as it is left. */
  ghost predicate StillSuperseded(v: Levels, v': Levels, floor: nat)
  {
    forall x :: x in Stored(v') && Superseded(Stored(v), x, floor) ==> Superseded(Stored(v'), x, floor)
  }

  lemma NewerStill(v: Levels, v': Levels, floor: nat, l: nat, f: File, m: nat, g: File)
    requires Newer(f, g, Stored(v), floor) && StillSuperseded(v, v', floor) && In(v', m, g)
    ensures Newer(f, g, Stored(v'), floor)
  {
    hide Superseded;
    forall x | x in g.run ensures x in Stored(v') {}
  }

  lemma ReplacedRecency(v: Levels, v': Levels, base: Levels, level: nat, in0: seq<File>, in1: seq<File>, outs: seq<File>,
                        floor: nat, smallest: nat)
    requires Recency(v, floor) && JobFits(v, base, level, in0, in1) && Replaced(v, v', level, in0, in1, outs)
    requires Outputs(outs, in0, in1) && NonePassed(v, level, in0, smallest) && smallest <= floor
    requires StillSuperseded(v, v', floor)
    ensures Recency(v', floor)
  {
    hide Newer, NonePassed, StillSuperseded, Stored;
    Origin(v, v', level, in0, in1, outs);
    forall l: nat, f, m: nat, g | In(v', l, f) && In(v', m, g) && Above(l, f, m, g)
      ensures Newer(f, g, Stored(v'), floor)
    {
      if !Stays(v, level, in0, in1, l, f) {
        OutputNewer(v, floor, level, in0, in1, f, m, g);
      } else if !Stays(v, level, in0, in1, m, g) {
        OutputOlder(v, floor, level, in0, in1, g, l, f, smallest);
      }
      NewerStill(v, v', floor, l, f, m, g);
    }
  }

  /** An output shares entries with no table but the inputs. */
  lemma ReplacedOnce(v: Levels, v': Levels, base: Levels, level: nat, in0: seq<File>, in1: seq<File>, outs: seq<File>)
    requires Once(v) && JobFits(v, base, level, in0, in1) && Replaced(v, v', level, in0, in1, outs)
    requires Outputs(outs, in0, in1)
    ensures Once(v')
  {
    Origin(v, v', level, in0, in1, outs);
    forall l: nat, f, m: nat, g, e | In(v', l, f) && In(v', m, g) && e in f.run && e in g.run
      ensures l == m && f == g
    {
      if Stays(v, level, in0, in1, l, f) {
        if !Stays(v, level, in0, in1, m, g) { OutputIsNew(v, base, level, in0, in1, outs, g, e, l, f); }
      } else if Stays(v, level, in0, in1, m, g) {
        OutputIsNew(v, base, level, in0, in1, outs, f, e, m, g);
      } else if f != g {
        FileIn(f, outs);
        FileIn(g, outs);
        BesideShareNothing(f, g, e);
      }
    }
  }

  lemma OutputIsNew(v: Levels, base: Levels, level: nat, in0: seq<File>, in1: seq<File>, outs: seq<File>, o: File, e: Entry, l: nat, f: File)
    requires Once(v) && JobFits(v, base, level, in0, in1) && Outputs(outs, in0, in1)
    requires o in outs && e in o.run && Stays(v, level, in0, in1, l, f)
    ensures e !in f.run
  {
    var a :| a in in0 + in1 && e in a.run;
    assert if a in in0 then In(v, level, a) else In(v, level + 1, a);
  }

  /** Installing the result of a compaction keeps the shape of the version. */
  lemma ReplacedShape(v: Levels, v': Levels, base: Levels, level: nat, in0: seq<File>, in1: seq<File>, outs: seq<File>,
                      floor: nat, smallest: nat, next: nat, next': nat)
    requires Shape(v, floor, next) && JobFits(v, base, level, in0, in1) && Replaced(v, v', level, in0, in1, outs)
    requires Outputs(outs, in0, in1) && FreeNumbers(v, in0, in1, outs, next') && next <= next'
    requires NonePassed(v, level, in0, smallest) && smallest <= floor && StillSuperseded(v, v', floor)
    ensures Shape(v', floor, next')
  {
    hide InOrder, AllOk, KeySorted, Recency, Once, NonePassed, StillSuperseded;
    ReplacedOk(v, v', base, level, in0, in1, outs);
    ReplacedRecency(v, v', base, level, in0, in1, outs, floor, smallest);
    ReplacedOnce(v, v', base, level, in0, in1, outs);
    ReplacedNumbers(v, v', base, level, in0, in1, outs, next, next');
    forall f, g | f in v'[0] && g in v'[0] && f.number == g.number
      ensures f == g
    {
      assert In(v', 0, f) && In(v', 0, g);
    }
  }

  lemma OutputNumber(v: Levels, level: nat, in0: seq<File>, in1: seq<File>, outs: seq<File>, next: nat, o: File, l: nat, f: File)
    requires UniqueNumbers(v) && level + 1 < |v| && FreeNumbers(v, in0, in1, outs, next)
    requires forall f :: f in in0 ==> f in v[level]
    requires forall f :: f in in1 ==> f in v[level + 1]
    requires o in outs && Stays(v, level, in0, in1, l, f)
    ensures o.number != f.number
  {
    assert f in in0 ==> In(v, level, f);
    assert f in in1 ==> In(v, level + 1, f);
  }

  lemma ReplacedNumbers(v: Levels, v': Levels, base: Levels, level: nat, in0: seq<File>, in1: seq<File>, outs: seq<File>, next: nat, next': nat)
    requires UniqueNumbers(v) && (forall l: nat, f :: In(v, l, f) ==> f.number < next)
    requires JobFits(v, base, level, in0, in1) && Replaced(v, v', level, in0, in1, outs)
    requires Outputs(outs, in0, in1) && FreeNumbers(v, in0, in1, outs, next') && next <= next'
    ensures UniqueNumbers(v')
    ensures forall l: nat, f :: In(v', l, f) ==> f.number < next'
  {
    Origin(v, v', level, in0, in1, outs);
    forall l: nat, m: nat, f, g | In(v', l, f) && In(v', m, g) && f.number == g.number
      ensures l == m && f == g
    {
      if Stays(v, level, in0, in1, l, f) {
        if !Stays(v, level, in0, in1, m, g) { OutputNumber(v, level, in0, in1, outs, next', g, l, f); }
      } else if Stays(v, level, in0, in1, m, g) {
        OutputNumber(v, level, in0, in1, outs, next', f, m, g);
      }
    }
    forall l: nat, f | In(v', l, f)
      ensures f.number < next'
    {
    }
  }
}
