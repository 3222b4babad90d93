/** When exactly a compaction changes what readers see (db/db_impl.cc, db/version_set.cc). */
module Resurfacing {
  import opened Bytes
  import opened InternalKeys
  import opened Version
  import opened Inputs
  import opened Picking
  import opened Compaction
  import opened Installing
  import opened VersionReads
  import opened Engine
  import opened BoundaryKeys

  /** Searches at snapshots from `smallest` on tell readers the same in both versions. */
  ghost predicate SameAnswers(v: Levels, v': Levels, smallest: nat)
  {
    forall key, snapshot, r, r' :: smallest <= snapshot && Answer(v, key, snapshot, r) && Answer(v', key, snapshot, r') ==>
                                     Outcome(r) == Outcome(r')
  }

  /** The entries of the tables of a level that are no inputs. */
  ghost function LeftOn(v: Levels, l: nat, ins: seq<File>): set<Entry>
    requires l < |v|
  {
    set f, e | f in v[l] && f !in ins && e in f.run :: e
  }

  /** Some snapshot from `smallest` on reads `e`. */
  ghost predicate Live(v: Levels, e: Entry, smallest: nat)
  {
    !Superseded(Stored(v), e, smallest)
  }

  /** `e` goes down a level and leaves behind the older `x`, which says something else. */
  ghost predicate Passes(v: Levels, level: nat, in0: seq<File>, smallest: nat, e: Entry, x: Entry)
  {
    && level < |v| && e in Union(in0) && Live(v, e, smallest)
    && NewestOlder(LeftOn(v, level, in0), e, x) && Outcome(Some(e)) != Outcome(Some(x))
  }

  /** The dropped marker `d` uncovers the value `x` of the next level. */
  ghost predicate Uncovers(v: Levels, level: nat, in0: seq<File>, in1: seq<File>, markers: set<Entry>, smallest: nat, d: Entry, x: Entry)
  {
    && level + 1 < |v| && d in markers && Live(v, d, smallest)
    && (forall y :: y in LeftOn(v, level, in0) && y.key == d.key ==> y.seqno >= d.seqno)
    && NewestOlder(LeftOn(v, level + 1, in1), d, x) && x.kind.Value?
  }

  ghost predicate Resurfaces(v: Levels, level: nat, in0: seq<File>, in1: seq<File>, markers: set<Entry>, smallest: nat)
  {
    || (exists e, x :: Passes(v, level, in0, smallest, e, x))
    || (exists d, x :: Uncovers(v, level, in0, in1, markers, smallest, d, x))
  }

  /** `outs` hold what is left of the inputs once superseded entries and `markers` are dropped. */
  ghost predicate Leaves(base: Levels, level: nat, ins: set<Entry>, outs: set<Entry>, markers: set<Entry>, smallest: nat)
  {
    && outs <= ins && markers <= ins
    && (forall x :: x in ins && x !in outs ==> Superseded(ins, x, smallest) || x in markers)
    && (forall d :: d in markers ==> d !in outs && Obsolete(base, level, d, smallest))
    && (forall d, x :: d in markers && x in outs && x.key == d.key ==> x.seqno > d.seqno)
  }

  /** A version `v` readers find the newest entries in from `floor` on, and the one installed over it. */
  ghost predicate Installs(v: Levels, v': Levels, base: Levels, level: nat, in0: seq<File>, in1: seq<File>, outs: seq<File>,
                           markers: set<Entry>, floor: nat, smallest: nat)
  {
    && FilesOk(v) && FilesOk(v') && FilesOk(base)
    && Recency(v, floor) && floor <= smallest && Once(v) && Distinct(Stored(v))
    && JobFits(v, base, level, in0, in1) && Replaced(v, v', level, in0, in1, outs)
    && Leaves(base, level, Union(in0 + in1), Union(outs), markers, smallest)
  }

  // ------------------------------------------------------------------ what goes wrong

  /** The snapshot at which a live entry is the newest visible one. */
  function SeenAt(e: Entry, smallest: nat): (s: nat)
    ensures smallest <= s && e.seqno <= s && (s == smallest || s == e.seqno)
  {
    if e.seqno < smallest then smallest else e.seqno
  }

  lemma LiveIsSeen(v: Levels, e: Entry, smallest: nat)
    requires e in Stored(v) && Live(v, e, smallest)
    ensures Sees(Stored(v), e.key, SeenAt(e, smallest), Some(e))
  {
  }

  /** What is searched before a live entry shows nothing older. */
  lemma HiddenAbove(v: Levels, floor: nat, e: Entry, smallest: nat, m: nat, g: File, l: nat, h: File, y: Entry)
    requires Recency(v, floor) && floor <= smallest && Live(v, e, smallest)
    requires In(v, m, g) && e in g.run && In(v, l, h) && Above(l, h, m, g) && y in h.run && y.key == e.key
    ensures y.seqno > e.seqno
  {
    NewerUnlessSuperseded(v, floor, l, h, y, m, g, e);
    if Superseded(Stored(v), e, floor) { SupersededLater(Stored(v), e, floor, smallest); }
  }

  /** The same entry in two tables is in one table. */
  lemma InOneTable(v: Levels, l: nat, f: File, m: nat, g: File, e: Entry, x: Entry)
    requires Once(v) && Distinct(Stored(v)) && In(v, l, f) && In(v, m, g) && (l != m || f != g)
    requires e in f.run && x in g.run && e.key == x.key
    ensures e.seqno != x.seqno
  {
    InStored(v, l, f, e);
    InStored(v, m, g, x);
  }

  /** An entry passed over is found instead of the newer one. */
  lemma PassedShows(v: Levels, v': Levels, base: Levels, level: nat, in0: seq<File>, in1: seq<File>, outs: seq<File>,
                    markers: set<Entry>, floor: nat, smallest: nat, e: Entry, x: Entry)
    requires Installs(v, v', base, level, in0, in1, outs, markers, floor, smallest) && Passes(v, level, in0, smallest, e, x)
    ensures !SameAnswers(v, v', smallest)
  {
    hide Recency, Replaced, FilesOk, Distinct, Once, Leaves, Superseded, Obsolete, Stored;
    InstallsParts(v, v', base, level, in0, in1, outs, markers, floor, smallest);
    var s := SeenAt(e, smallest);
    var a :| a in in0 && e in a.run;
    InStored(v, level, a, e);
    LiveIsSeen(v, e, smallest);
    var g :| g in v[level] && g !in in0 && x in g.run;
    if level == 0 { assert Newer(g, a, {}, 0); NoneSuperseded(e); }
    forall l | 0 <= l < level
      ensures Hidden(v'[l], e.key, s)
    {
      HiddenLevel(v, floor, e, smallest, level, a, l);
    }
    var r := AnswerStopsAt(v', e.key, s, level, g, x);
    var h :| h in v'[level] && r in h.run;
    assert In(v, level, h) && In(v, level, a);
    InStored(v, level, h, r);
    InOneTable(v, level, h, level, a, r, e);
    InStored(v, level, g, x);
    assert r == x by { DistinctMeans(v, r, x); }
    AnswersDiffer(v, v', floor, smallest, s, e, r);
  }

  lemma AnswersDiffer(v: Levels, v': Levels, floor: nat, smallest: nat, snapshot: nat, e: Entry, x: Entry)
    requires FilesOk(v) && Recency(v, floor) && Distinct(Stored(v)) && floor <= smallest <= snapshot
    requires Sees(Stored(v), e.key, snapshot, Some(e)) && Answer(v', e.key, snapshot, Some(x))
    requires Outcome(Some(e)) != Outcome(Some(x))
    ensures !SameAnswers(v, v', smallest)
  {
    hide FilesOk, Recency, Distinct, Answer, Stored, Sees;
    var before := AnswerExists(v, e.key, snapshot);
    AnswerIsNewest(v, floor, e.key, snapshot, before);
    SameAnswer(Stored(v), e.key, snapshot, before, Some(e));
  }

  lemma DistinctMeans(v: Levels, x: Entry, y: Entry)
    requires Distinct(Stored(v)) && x in Stored(v) && y in Stored(v) && x.key == y.key && x.seqno == y.seqno
    ensures x == y
  {
  }

  lemma NoneSuperseded(e: Entry)
    ensures !Superseded({}, e, 0)
  {
  }

  lemma HiddenLevel(v: Levels, floor: nat, e: Entry, smallest: nat, m: nat, g: File, l: nat)
    requires Recency(v, floor) && floor <= smallest && Live(v, e, smallest)
    requires In(v, m, g) && e in g.run && l < m
    requires Sees(Stored(v), e.key, SeenAt(e, smallest), Some(e))
    ensures Hidden(v[l], e.key, SeenAt(e, smallest))
  {
    hide Recency, Stored, Live;
    forall h, y | h in v[l] && y in h.run && y.key == e.key
      ensures y.seqno > SeenAt(e, smallest)
    {
      assert In(v, l, h) && Above(l, h, m, g);
      HiddenAbove(v, floor, e, smallest, m, g, l, h, y);
      InStored(v, l, h, y);
    }
  }

  lemma InstallsParts(v: Levels, v': Levels, base: Levels, level: nat, in0: seq<File>, in1: seq<File>, outs: seq<File>,
                      markers: set<Entry>, floor: nat, smallest: nat)
    requires Installs(v, v', base, level, in0, in1, outs, markers, floor, smallest)
    ensures |v| == |v'| == |base| == NUM_LEVELS && level + 1 < |v|
    ensures forall a :: a in in0 ==> In(v, level, a)
    ensures forall a :: a in in1 ==> In(v, level + 1, a)
    ensures forall l :: 0 <= l < |v| && l != level && l != level + 1 ==> v'[l] == v[l]
    ensures forall f :: f in v'[level] <==> f in v[level] && f !in in0
    ensures forall f :: f in v'[level + 1] <==> (f in v[level + 1] && f !in in1) || f in outs
    ensures Stored(v) == Union(in0 + in1) + Rest(v, level, in0, in1)
    ensures Stored(v') == Union(outs) + Rest(v, level, in0, in1)
    ensures Stored(v') <= Stored(v)
  {
    StoredSplits(v, level, in0, in1);
    StoredReplaced(v, v', level, in0, in1, outs);
  }

  /** A value uncovered by a dropped marker is found. */
  lemma UncoveredShows(v: Levels, v': Levels, base: Levels, level: nat, in0: seq<File>, in1: seq<File>, outs: seq<File>,
                       markers: set<Entry>, floor: nat, smallest: nat, d: Entry, x: Entry)
    requires Installs(v, v', base, level, in0, in1, outs, markers, floor, smallest)
    requires Uncovers(v, level, in0, in1, markers, smallest, d, x)
    ensures !SameAnswers(v, v', smallest)
  {
    hide Recency, Replaced, FilesOk, Distinct, Once, Superseded, Stored, BaseLevel, Answer, SameAnswers, JobFits;
    InstallsParts(v, v', base, level, in0, in1, outs, markers, floor, smallest);
    var a :| a in in0 + in1 && d in a.run;
    var m := if a in in0 then level else level + 1;
    InStored(v, m, a, d);
    LiveIsSeen(v, d, smallest);
    forall l | 0 <= l < level
      ensures Hidden(v'[l], d.key, smallest)
    {
      HiddenLevel(v, floor, d, smallest, m, a, l);
    }
    NothingLeftHides(v, v', level, in0, a, m, d, smallest);
    var g :| g in v[level + 1] && g !in in1 && x in g.run;
    var r := AnswerStopsAt(v', d.key, smallest, level + 1, g, x);
    UncoveredIs(v, v', base, level, in0, in1, outs, markers, floor, smallest, d, x, a, m, r);
    AnswersDiffer(v, v', floor, smallest, smallest, d, r);
  }

  /** What is left on the level shows nothing, if it holds nothing older than the marker. */
  lemma NothingLeftHides(v: Levels, v': Levels, level: nat, in0: seq<File>, a: File, m: nat, d: Entry, smallest: nat)
    requires Once(v) && Distinct(Stored(v)) && level < |v| && level < |v'| && In(v, m, a) && d in a.run && (m == level ==> a in in0)
    requires Sees(Stored(v), d.key, smallest, Some(d))
    requires forall y :: y in LeftOn(v, level, in0) && y.key == d.key ==> y.seqno >= d.seqno
    requires forall f :: f in v'[level] <==> f in v[level] && f !in in0
    ensures Hidden(v'[level], d.key, smallest)
  {
    hide Once, Distinct, Stored;
    forall h, y | h in v'[level] && y in h.run && y.key == d.key
      ensures y.seqno > smallest
    {
      assert y in LeftOn(v, level, in0);
      assert In(v, level, h);
      InOneTable(v, level, h, m, a, y, d);
      InStored(v, level, h, y);
    }
  }

  lemma UncoveredIs(v: Levels, v': Levels, base: Levels, level: nat, in0: seq<File>, in1: seq<File>, outs: seq<File>,
                    markers: set<Entry>, floor: nat, smallest: nat, d: Entry, x: Entry, a: File, m: nat, r: Entry)
    requires Installs(v, v', base, level, in0, in1, outs, markers, floor, smallest)
    requires Uncovers(v, level, in0, in1, markers, smallest, d, x)
    requires a in in0 + in1 && m == (if a in in0 then level else level + 1) && d in a.run
    requires Sees(Stored(v), d.key, smallest, Some(d)) && NewestOf(v'[level + 1], d.key, smallest, r)
    ensures r == x
  {
    hide Recency, Replaced, FilesOk, Distinct, Once, Superseded, Stored, BaseLevel, JobFits;
    InstallsParts(v, v', base, level, in0, in1, outs, markers, floor, smallest);
    var h :| h in v'[level + 1] && r in h.run;
    var g :| g in v[level + 1] && g !in in1 && x in g.run;
    InStored(v, level + 1, g, x);
    InStored(v', level + 1, h, r);
    assert forall y :: h in outs && y in h.run ==> y in Union(outs);
    assert r in LeftOn(v, level + 1, in1);
    assert In(v, level + 1, h);
    InOneTable(v, level + 1, h, m, a, r, d);
    DistinctMeans(v, r, x);
  }

  // ------------------------------------------------------------------ nothing else goes wrong

  /** A search that finds an older entry finds one that was passed over, or uncovered. */
  lemma OlderIsNamed(v: Levels, v': Levels, base: Levels, level: nat, in0: seq<File>, in1: seq<File>, outs: seq<File>,
                     markers: set<Entry>, floor: nat, smallest: nat, snapshot: nat, e: Entry, x: Entry)
    requires Installs(v, v', base, level, in0, in1, outs, markers, floor, smallest) && smallest <= snapshot
    requires Sees(Stored(v), e.key, snapshot, Some(e)) && Answer(v', e.key, snapshot, Some(x)) && x.seqno < e.seqno
    requires !Resurfaces(v, level, in0, in1, markers, smallest)
    ensures Outcome(Some(x)) == Outcome(Some(e))
  {
    hide Recency, Replaced, FilesOk, Distinct, Once, Superseded, Stored, Obsolete, Hidden, NewestOf, Answer, Leaves, JobFits;
    InstallsParts(v, v', base, level, in0, in1, outs, markers, floor, smallest);
    var l, f := FoundIs(v', e.key, snapshot, Some(x));
    NewestIsLive(v, e, smallest, snapshot);
    if f in outs && l == level + 1 {
      NotAnOutput(v, v', base, level, in0, in1, outs, markers, floor, smallest, snapshot, e, x, f);
    } else {
      assert Stays(v, level, in0, in1, l, f);
      StaysFound(v, v', base, level, in0, in1, outs, markers, floor, smallest, snapshot, e, x, l, f);
    }
  }

  lemma NewestIsLive(v: Levels, e: Entry, smallest: nat, snapshot: nat)
    requires Sees(Stored(v), e.key, snapshot, Some(e)) && smallest <= snapshot
    ensures Live(v, e, smallest)
  {
  }

  /** An output never answers in the place of a newer entry. */
  lemma NotAnOutput(v: Levels, v': Levels, base: Levels, level: nat, in0: seq<File>, in1: seq<File>, outs: seq<File>,
                    markers: set<Entry>, floor: nat, smallest: nat, snapshot: nat, e: Entry, x: Entry, o: File)
    requires Installs(v, v', base, level, in0, in1, outs, markers, floor, smallest) && smallest <= snapshot
    requires Sees(Stored(v), e.key, snapshot, Some(e)) && Live(v, e, smallest)
    requires o in outs && x in o.run && x.key == e.key
    requires forall m: nat, g, w :: In(v', m, g) && w in g.run && w.key == e.key && x.seqno < w.seqno <= snapshot ==>
               Above(level + 1, o, m, g)
    ensures x.seqno >= e.seqno
  {
    hide Recency, Replaced, FilesOk, Distinct, Once, Stored, Obsolete, JobFits;
    InstallsParts(v, v', base, level, in0, in1, outs, markers, floor, smallest);
    assert x in Union(outs);
    if e in Union(outs) {
      var o' :| o' in outs && e in o'.run;
      assert In(v', level + 1, o');
    } else if e in Union(in0 + in1) {
      NotSuperseded(v, Union(in0 + in1), e, smallest);
    } else {
      var m, g :| 0 <= m < |v| && g in v[m] && Stays(v, level, in0, in1, m, g) && e in g.run;
      assert In(v', m, g);
      var a :| a in in0 + in1 && x in a.run;
      if x.seqno < e.seqno {
        HiddenAbove(v, floor, e, smallest, m, g, if a in in0 then level else level + 1, a, x);
      }
    }
  }

  lemma NotSuperseded(v: Levels, some: set<Entry>, e: Entry, smallest: nat)
    requires Live(v, e, smallest) && some <= Stored(v)
    ensures !Superseded(some, e, smallest)
  {
  }

  /** An older entry found in a table that stayed was passed by the newer one, or uncovered. */
  lemma StaysFound(v: Levels, v': Levels, base: Levels, level: nat, in0: seq<File>, in1: seq<File>, outs: seq<File>,
                   markers: set<Entry>, floor: nat, smallest: nat, snapshot: nat, e: Entry, x: Entry, l: nat, f: File)
    requires Installs(v, v', base, level, in0, in1, outs, markers, floor, smallest) && smallest <= snapshot
    requires Sees(Stored(v), e.key, snapshot, Some(e)) && Live(v, e, smallest)
    requires Stays(v, level, in0, in1, l, f) && x in f.run && x.key == e.key && x.seqno < e.seqno
    requires l < |v'| && (1 <= l ==> NewestOf(v'[l], e.key, snapshot, x))
    requires forall m :: 0 <= m < l ==> Hidden(v'[m], e.key, snapshot)
    requires forall m: nat, g, w :: In(v', m, g) && w in g.run && w.key == e.key && x.seqno < w.seqno <= snapshot ==>
               Above(l, f, m, g)
    requires !Resurfaces(v, level, in0, in1, markers, smallest)
    ensures Outcome(Some(x)) == Outcome(Some(e))
  {
    hide Recency, Replaced, FilesOk, Distinct, Once, Stored, Obsolete, JobFits, Resurfaces, NewestOf, Hidden, Leaves;
    InstallsParts(v, v', base, level, in0, in1, outs, markers, floor, smallest);
    if e in Rest(v, level, in0, in1) {
      var m, g :| 0 <= m < |v| && g in v[m] && Stays(v, level, in0, in1, m, g) && e in g.run;
      assert In(v', m, g);
      HiddenAbove(v, floor, e, smallest, m, g, l, f, x);
    } else {
      var a :| a in in0 + in1 && e in a.run;
      var m := if a in in0 then level else level + 1;
      if l == level && a in in0 {
        PassedIsNamed(v, v', base, level, in0, in1, outs, markers, floor, smallest, snapshot, e, x, f, a);
      } else if l <= level {
        HiddenAbove(v, floor, e, smallest, m, a, l, f, x);
      } else {
        MarkerDropped(v, v', base, level, in0, in1, outs, markers, floor, smallest, snapshot, e, x, l, f, a);
      }
    }
  }

  lemma PassedIsNamed(v: Levels, v': Levels, base: Levels, level: nat, in0: seq<File>, in1: seq<File>, outs: seq<File>,
                      markers: set<Entry>, floor: nat, smallest: nat, snapshot: nat, e: Entry, x: Entry, f: File, a: File)
    requires Installs(v, v', base, level, in0, in1, outs, markers, floor, smallest) && smallest <= snapshot
    requires Sees(Stored(v), e.key, snapshot, Some(e)) && Live(v, e, smallest)
    requires f in v[level] && f !in in0 && x in f.run && x.key == e.key && x.seqno < e.seqno
    requires a in in0 && e in a.run
    requires 1 <= level ==> NewestOf(v'[level], e.key, snapshot, x)
    requires !Resurfaces(v, level, in0, in1, markers, smallest)
    ensures Outcome(Some(x)) == Outcome(Some(e))
  {
    hide Recency, Replaced, FilesOk, Distinct, Once, Stored, Obsolete, Superseded, Leaves;
    InstallsParts(v, v', base, level, in0, in1, outs, markers, floor, smallest);
    if level == 0 {
      assert Newer(f, a, {}, 0);
      NoneSuperseded(e);
    } else {
      assert x in LeftOn(v, level, in0) && e in Union(in0);
      assert NewestOlder(LeftOn(v, level, in0), e, x);
      assert !Passes(v, level, in0, smallest, e, x);
    }
  }

  lemma MarkerDropped(v: Levels, v': Levels, base: Levels, level: nat, in0: seq<File>, in1: seq<File>, outs: seq<File>,
                      markers: set<Entry>, floor: nat, smallest: nat, snapshot: nat, e: Entry, x: Entry, l: nat, f: File, a: File)
    requires Installs(v, v', base, level, in0, in1, outs, markers, floor, smallest) && smallest <= snapshot
    requires Sees(Stored(v), e.key, snapshot, Some(e)) && Live(v, e, smallest)
    requires level < l && Stays(v, level, in0, in1, l, f) && x in f.run && x.key == e.key && x.seqno < e.seqno
    requires l < |v'| && NewestOf(v'[l], e.key, snapshot, x)
    requires forall m :: 0 <= m < l ==> Hidden(v'[m], e.key, snapshot)
    requires forall m: nat, g, w :: In(v', m, g) && w in g.run && w.key == e.key && x.seqno < w.seqno <= snapshot ==>
               Above(l, f, m, g)
    requires !Resurfaces(v, level, in0, in1, markers, smallest)
    requires a in in0 + in1 && e in a.run
    ensures Outcome(Some(x)) == Outcome(Some(e))
  {
    hide Recency, Replaced, FilesOk, Distinct, Once, Stored, BaseLevel, JobFits;
    InstallsParts(v, v', base, level, in0, in1, outs, markers, floor, smallest);
    NotSuperseded(v, Union(in0 + in1), e, smallest);
    forall o | o in outs
      ensures e !in o.run
    {
      assert In(v', level + 1, o);
    }
    assert e in markers;
    if l == level + 1 {
      forall y | y in LeftOn(v, level, in0) && y.key == e.key
        ensures y.seqno >= e.seqno
      {
        var h :| h in v[level] && h !in in0 && y in h.run;
        HiddenIs(v'[level], e.key, snapshot, h, y);
      }
      assert x in LeftOn(v, level + 1, in1);
      assert NewestOlder(LeftOn(v, level + 1, in1), e, x);
      assert !Uncovers(v, level, in0, in1, markers, smallest, e, x);
    } else {
      BaseHoldsNothing(v, base, level, in0, in1, a, e, l, f, x, smallest);
    }
  }

  /** Where a marker is obsolete, deeper levels do not hold its user key. */
  lemma BaseHoldsNothing(v: Levels, base: Levels, level: nat, in0: seq<File>, in1: seq<File>, a: File, d: Entry,
                         l: nat, g: File, x: Entry, smallest: nat)
    requires FilesOk(v) && JobFits(v, base, level, in0, in1)
    requires a in in0 + in1 && d in a.run && level + 2 <= l && In(v, l, g) && x in g.run && x.key == d.key
    ensures !Obsolete(base, level, d, smallest)
  {
    InputsOk(v, base, level, in0, in1);
    Holder(a, in0 + in1, d);
    Holder(g, v[l], x);
    CoversMeet(a, g, d.key);
    assert TouchesHull(in0 + in1, g);
    assert g in base[l];
    var i :| 0 <= i < |base[l]| && base[l][i] == g;
    assert base[l][i].Covers(d.key);
  }

  /** The exact condition, for anything installed in the place of some inputs. */
  lemma InstallIsRightIff(v: Levels, v': Levels, base: Levels, level: nat, in0: seq<File>, in1: seq<File>, outs: seq<File>,
                          markers: set<Entry>, floor: nat, smallest: nat)
    requires Installs(v, v', base, level, in0, in1, outs, markers, floor, smallest)
    ensures SameAnswers(v, v', smallest) <==> !Resurfaces(v, level, in0, in1, markers, smallest)
  {
    hide Installs, Passes, Uncovers, Answer;
    if e, x :| Passes(v, level, in0, smallest, e, x) {
      PassedShows(v, v', base, level, in0, in1, outs, markers, floor, smallest, e, x);
    } else if d, x :| Uncovers(v, level, in0, in1, markers, smallest, d, x) {
      UncoveredShows(v, v', base, level, in0, in1, outs, markers, floor, smallest, d, x);
    } else {
      forall key, snapshot, r, r' | smallest <= snapshot && Answer(v, key, snapshot, r) && Answer(v', key, snapshot, r')
        ensures Outcome(r) == Outcome(r')
      {
        AnswerSurvives(v, v', base, level, in0, in1, outs, markers, floor, smallest, key, snapshot, r, r');
      }
    }
  }

  lemma AnswerSurvives(v: Levels, v': Levels, base: Levels, level: nat, in0: seq<File>, in1: seq<File>, outs: seq<File>,
                       markers: set<Entry>, floor: nat, smallest: nat, key: Slice, snapshot: nat, r: Option<Entry>, r': Option<Entry>)
    requires Installs(v, v', base, level, in0, in1, outs, markers, floor, smallest) && smallest <= snapshot
    requires Answer(v, key, snapshot, r) && Answer(v', key, snapshot, r')
    requires !Resurfaces(v, level, in0, in1, markers, smallest)
    ensures Outcome(r) == Outcome(r')
  {
    hide Recency, Replaced, FilesOk, Once, Stored, Obsolete, JobFits, Resurfaces, Leaves, Answer, Superseded;
    InstallsParts(v, v', base, level, in0, in1, outs, markers, floor, smallest);
    AnswerIsNewest(v, floor, key, snapshot, r);
    if r'.Some? {
      var l, f := FoundIs(v', key, snapshot, r');
      InStored(v', l, f, r'.value);
      if r'.value.seqno < r.value.seqno {
        OlderIsNamed(v, v', base, level, in0, in1, outs, markers, floor, smallest, snapshot, r.value, r'.value);
      } else {
        DistinctMeans(v, r.value, r'.value);
      }
    } else if r.Some? {
      NewestIsLive(v, r.value, smallest, snapshot);
      NotFoundIsMarker(v, v', base, level, in0, in1, outs, markers, floor, smallest, snapshot, r.value);
    }
  }

  /** Only a dropped marker is no longer found. */
  lemma NotFoundIsMarker(v: Levels, v': Levels, base: Levels, level: nat, in0: seq<File>, in1: seq<File>, outs: seq<File>,
                         markers: set<Entry>, floor: nat, smallest: nat, snapshot: nat, e: Entry)
    requires Installs(v, v', base, level, in0, in1, outs, markers, floor, smallest)
    requires e in Stored(v) && e.seqno <= snapshot && Live(v, e, smallest) && Answer(v', e.key, snapshot, None)
    ensures e.kind.Deletion?
  {
    hide Recency, Replaced, FilesOk, Once, Stored, JobFits, Answer, BaseLevel;
    InstallsParts(v, v', base, level, in0, in1, outs, markers, floor, smallest);
    NothingFound(v', e.key, snapshot);
    NotSuperseded(v, Union(in0 + in1), e, smallest);
    if e in Stored(v') {
      StoredIsShown(v', e, snapshot);
    }
    assert e in markers;
  }

  lemma StoredIsShown(v: Levels, e: Entry, snapshot: nat)
    requires e in Stored(v) && e.seqno <= snapshot
    ensures exists l :: 0 <= l < |v| && !Hidden(v[l], e.key, snapshot)
  {
    var l, f :| 0 <= l < |v| && f in v[l] && e in f.run;
    assert !Hidden(v[l], e.key, snapshot);
  }

  // ------------------------------------------------------------------ compactions and moves

  /** The deletion markers among the inputs that DoCompactionWork drops as obsolete. */
  ghost function Markers(base: Levels, level: nat, ins: seq<File>, smallest: nat): set<Entry>
  {
    set d | d in Union(ins) && Obsolete(base, level, d, smallest)
  }

  lemma InstalledOk(v: Levels, v': Levels, base: Levels, level: nat, in0: seq<File>, in1: seq<File>, outs: seq<File>)
    requires FilesOk(v) && JobFits(v, base, level, in0, in1) && Replaced(v, v', level, in0, in1, outs) && Outputs(outs, in0, in1)
    ensures FilesOk(v')
  {
    hide AllOk, KeySorted, JobFits, Outputs;
    ReplacedOk(v, v', base, level, in0, in1, outs);
  }

  /**
   * Whatever DoCompactionWork writes for a job that fits, readers from `smallest` on are told what
   * they were told before if and only if no input leaves an older entry behind that says something
   * else: on its own level, or, where a deletion marker is dropped, on the next one.
   */
  lemma CompactionIsRightIff(v: Levels, v': Levels, base: Levels, level: nat, in0: seq<File>, in1: seq<File>,
                             merged: seq<Entry>, outs: seq<File>, first: nat, next: nat, floor: nat, smallest: nat)
    requires FilesOk(v) && FilesOk(base) && Recency(v, floor) && floor <= smallest < MAX_SEQUENCE && Once(v) && Distinct(Stored(v))
    requires JobFits(v, base, level, in0, in1) && Replaced(v, v', level, in0, in1, outs)
    requires IsMerge(merged, in0 + in1) && Written(outs, first, next)
    requires Flat(outs) == Kept(base, level, merged, smallest, |merged|)
    ensures SameAnswers(v, v', smallest) <==> !Resurfaces(v, level, in0, in1, Markers(base, level, in0 + in1, smallest), smallest)
  {
    hide FilesOk, Recency, Once, JobFits, Replaced, Written, Flat, Kept, Resurfaces, SameAnswers, Superseded, Obsolete, Union, Stored;
    JobParts(v, base, level, in0, in1);
    OutputsOf(Running(base, level, in0, in1, smallest), merged, outs, first, next);
    InstalledOk(v, v', base, level, in0, in1, outs);
    StoredSplits(v, level, in0, in1);
    FlatUnion(outs);
    KeptExactly(base, level, merged, smallest);
    CompactionLeaves(base, level, Union(in0 + in1), Union(outs), Markers(base, level, in0 + in1, smallest), smallest);
    InstallIsRightIff(v, v', base, level, in0, in1, outs, Markers(base, level, in0 + in1, smallest), floor, smallest);
  }

  lemma CompactionLeaves(base: Levels, level: nat, ins: set<Entry>, outs: set<Entry>, markers: set<Entry>, smallest: nat)
    requires Survivors(base, level, ins, outs, smallest)
    requires forall d :: d in markers <==> d in ins && Obsolete(base, level, d, smallest)
    requires Distinct(ins)
    ensures Leaves(base, level, ins, outs, markers, smallest)
  {
    hide BaseLevel;
    forall d, x | d in markers && x in outs && x.key == d.key
      ensures x.seqno > d.seqno
    {
    }
  }

  /** The same for the trivial move, which drops nothing. */
  lemma MoveIsRightIff(v: Levels, v': Levels, level: nat, f: File, floor: nat, next: nat, smallest: nat)
    requires Shape(v, floor, next) && floor <= smallest && Distinct(Stored(v))
    requires GoodInputs(v, level, [f], []) && Replaced(v, v', level, [f], [], [f])
    ensures SameAnswers(v, v', smallest) <==> !exists e, x :: Passes(v, level, [f], smallest, e, x)
  {
    hide FilesOk, Recency, Once, JobFits, Replaced, SameAnswers, Superseded, Obsolete, Union, Stored, Connected, Outputs, FreeNumbers, Passes, UniqueNumbers;
    PickedFits(v, floor, next, level, [f], []);
    MovedIsInput(v, level, f);
    OneMoved(v, floor, next, level, f);
    InstalledOk(v, v', v, level, [f], [], [f]);
    assert [f] + [] == [f];
    InstallIsRightIff(v, v', v, level, [f], [], [f], {}, floor, smallest);
  }

  // ------------------------------------------------------------------ the guard

  /** The guard of the runs implies the exact condition. */
  lemma GuardIsEnough(v: Levels, level: nat, in0: seq<File>, in1: seq<File>, smallest: nat)
    requires GoodInputs(v, level, in0, in1) && NothingResurfaces(v, level, in0, in1, smallest)
    ensures !Resurfaces(v, level, in0, in1, Markers(v, level, in0 + in1, smallest), smallest)
  {
    hide Connected, Obsolete, Superseded;
    forall e, x | e in Union(in0) && Live(v, e, smallest) && x in LeftOn(v, level, in0) && x.key == e.key
      ensures x.seqno > e.seqno
    {
      var f :| f in in0 && e in f.run;
      var g :| g in v[level] && g !in in0 && x in g.run;
      assert Newer(g, f, Stored(v), smallest);
    }
    forall d, x | d in Markers(v, level, in0 + in1, smallest) && Live(v, d, smallest) && x in LeftOn(v, level + 1, in1) && x.key == d.key
      ensures x.seqno >= d.seqno
    {
      var g :| g in v[level + 1] && g !in in1 && x in g.run;
      assert Stays(v, level, in0, in1, level + 1, g);
      assert x in Rest(v, level, in0, in1);
    }
  }

  /** Where the guard fails, some snapshot from `smallest` on reads an entry that leaves an older one behind. */
  lemma GuardFailsOnlyWhere(v: Levels, level: nat, in0: seq<File>, in1: seq<File>, smallest: nat)
    requires GoodInputs(v, level, in0, in1) && Once(v) && Distinct(Stored(v)) && !NothingResurfaces(v, level, in0, in1, smallest)
    ensures exists e, x :: e in Union(in0 + in1) && Live(v, e, smallest) && x in Rest(v, level, in0, in1) && x.key == e.key && x.seqno < e.seqno
  {
    hide Connected, Obsolete, Superseded, Distinct, Once, TouchesHull;
    if !NonePassed(v, level, in0, smallest) {
      var f, g :| f in in0 && g in v[level] && g !in in0 && !Newer(g, f, Stored(v), smallest);
      var x, e :| x in g.run && e in f.run && x.key == e.key && !(x.seqno > e.seqno || Superseded(Stored(v), e, smallest));
      assert In(v, level, f) && In(v, level, g);
      InOneTable(v, level, f, level, g, e, x);
      assert f in in0 + in1 && Stays(v, level, in0, in1, level, g);
      assert e in Union(in0 + in1) && x in Rest(v, level, in0, in1);
    }
  }

  /** Only a user key that an input table ends with and a table left behind goes on with can resurface. */
  lemma OnlyContinuedKeysResurface(v: Levels, floor: nat, level: nat, in0: seq<File>, in1: seq<File>, smallest: nat)
    requires FilesOk(v) && Recency(v, floor) && Once(v) && Distinct(Stored(v)) && floor <= smallest
    requires GoodInputs(v, level, in0, in1)
    requires Resurfaces(v, level, in0, in1, Markers(v, level, in0 + in1, smallest), smallest)
    ensures !EndsBetweenKeys(v, level, in0, in1)
  {
    hide FilesOk, Recency, Once, Distinct, GoodInputs, Resurfaces, EndsBetweenKeys, NothingResurfaces, Markers;
    if EndsBetweenKeys(v, level, in0, in1) {
      UnsplitNeedsNoGuard(v, floor, level, in0, in1, smallest);
      GuardIsEnough(v, level, in0, in1, smallest);
    }
  }
}
