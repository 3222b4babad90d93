/** Tables, levels and the lookup over a version (db/version_set.cc). */
module Version {
  import opened Bytes
  import opened InternalKeys

  /** config::kNumLevels. */
  const NUM_LEVELS := 7

  /** A table: its metadata and the entries it holds. */
  datatype File = File(number: nat, size: nat, smallest: IKey, largest: IKey, run: seq<Entry>) {
    /** `user` lies between the user keys of the smallest and the largest entry. */
    predicate Covers(user: Slice)
    {
      !Less(user, smallest.user) && !Less(largest.user, user)
    }
  }

  /** files_: one list of tables for each level. */
  type Levels = seq<seq<File>>

  ghost predicate FileOk(f: File)
  {
    && f.run != [] && Sorted(f.run)
    && f.smallest == f.run[0].Ikey()
    && f.largest == f.run[|f.run| - 1].Ikey()
    && (forall i :: 0 <= i < |f.run| ==> f.run[i].seqno <= MAX_SEQUENCE)
  }

  ghost predicate AllOk(files: seq<File>)
  {
    forall i :: 0 <= i < |files| ==> FileOk(files[i])
  }

  /** Tables in increasing order that share no internal key. */
  ghost predicate KeySorted(files: seq<File>)
  {
    forall i, j :: 0 <= i < j < |files| ==> ILess(files[i].largest, files[j].smallest)
  }

  /** BySmallestKey: by smallest key, then by number. */
  predicate Before(f: File, g: File)
  {
    ILess(f.smallest, g.smallest) || (f.smallest == g.smallest && f.number < g.number)
  }

  ghost predicate InOrder(files: seq<File>)
  {
    forall i, j :: 0 <= i < j < |files| ==> Before(files[i], files[j])
  }

  /**
   * Every entry of a user key in `f` was written after every entry of it in `g`, up to entries of
   * `g` that no snapshot from `floor` on can see.
   */
  ghost predicate Newer(f: File, g: File, stored: set<Entry>, floor: nat)
  {
    forall e, x :: e in f.run && x in g.run && e.key == x.key ==> e.seqno > x.seqno || Superseded(stored, x, floor)
  }

  /** Table `f` of level `l` is searched before table `g` of level `m`. */
  predicate Above(l: nat, f: File, m: nat, g: File)
  {
    l < m || (l == 0 && m == 0 && f.number > g.number)
  }

  ghost predicate FilesOk(v: Levels)
  {
    && |v| == NUM_LEVELS
    && (forall l :: 0 <= l < |v| ==> AllOk(v[l]))
    && (forall f, g :: f in v[0] && g in v[0] && f.number == g.number ==> f == g)
    && (forall l :: 1 <= l < |v| ==> KeySorted(v[l]))
  }

  /** `f` is one of the tables of level `l`. */
  ghost predicate In(v: Levels, l: nat, f: File)
  {
    l < |v| && f in v[l]
  }

  ghost predicate UniqueNumbers(v: Levels)
  {
    forall l: nat, f, m: nat, g :: In(v, l, f) && In(v, m, g) && f.number == g.number ==> l == m && f == g
  }

  /** All entries held by the tables of `v`. */
  ghost function Stored(v: Levels): set<Entry>
  {
    set l, f, e | 0 <= l < |v| && f in v[l] && e in f.run :: e
  }

  /** For snapshots from `floor` on, newer entries of a user key are searched first. */
  ghost predicate Recency(v: Levels, floor: nat)
  {
    forall l: nat, f, m: nat, g :: In(v, l, f) && In(v, m, g) && Above(l, f, m, g) ==> Newer(f, g, Stored(v), floor)
  }

  /** The user keys of a table lie within its metadata range. */
  lemma KeysInRange(f: File, i: nat)
    requires FileOk(f) && i < |f.run|
    ensures f.Covers(f.run[i].key)
    ensures !ILess(f.largest, f.run[i].Ikey())
    ensures !ILess(f.run[i].Ikey(), f.smallest)
  {
    IOrder(f.smallest, f.run[i].Ikey(), f.largest);
    IOrder(f.run[i].Ikey(), f.largest, f.smallest);
    Order(f.smallest.user, f.run[i].key, f.largest.user);
    Order(f.run[i].key, f.largest.user, f.smallest.user);
  }

  /** The first table, from `i` on, whose largest key is at or after `target`. */
  function FirstFile(files: seq<File>, target: IKey, i: nat): (r: nat)
    requires i <= |files|
    ensures i <= r <= |files|
    ensures forall j :: i <= j < r ==> ILess(files[j].largest, target)
    ensures r < |files| ==> !ILess(files[r].largest, target)
    decreases |files| - i
  {
    if i < |files| && ILess(files[i].largest, target) then FirstFile(files, target, i + 1) else i
  }

  /** Binary search for the first table whose largest key is at or after `target`. */
  method FindFile(files: seq<File>, target: IKey) returns (right: nat)
    requires AllOk(files)
    requires KeySorted(files)
    ensures right == FirstFile(files, target, 0)
    ensures forall i :: right <= i < |files| ==> !ILess(files[i].largest, target)
  {
    var left := 0;
    right := |files|;
    while left < right
      invariant left <= right <= |files|
      invariant forall i :: 0 <= i < left ==> ILess(files[i].largest, target)
      invariant forall i :: right <= i < |files| ==> !ILess(files[i].largest, target)
    {
      var mid := (left + right) / 2;
      if ILess(files[mid].largest, target) {
        forall i | left <= i < mid
          ensures ILess(files[i].largest, target)
        {
          LargestIncrease(files, i, mid);
          IOrder(files[i].largest, files[mid].largest, target);
        }
        left := mid + 1;
      } else {
        forall i | mid < i < right
          ensures !ILess(files[i].largest, target)
        {
          LargestIncrease(files, mid, i);
          IOrder(files[mid].largest, files[i].largest, target);
        }
        right := mid;
      }
    }
    FirstFileIs(files, target, 0, right);
  }

  lemma {:induction false} FirstFileIs(files: seq<File>, target: IKey, i: nat, r: nat)
    requires i <= r <= |files|
    requires forall j :: i <= j < r ==> ILess(files[j].largest, target)
    requires r < |files| ==> !ILess(files[r].largest, target)
    ensures FirstFile(files, target, i) == r
    decreases r - i
  {
    if i < r {
      FirstFileIs(files, target, i + 1, r);
    }
  }

  lemma LargestIncrease(files: seq<File>, i: nat, j: nat)
    requires AllOk(files)
    requires KeySorted(files) && i < j < |files|
    ensures ILess(files[i].largest, files[j].largest)
  {
    KeysInRange(files[j], |files[j].run| - 1);
    IOrder(files[i].largest, files[j].smallest, files[j].largest);
  }

  /** std::sort with NewestFirst. */
  method NewestFirst(files: seq<File>) returns (r: seq<File>)
    ensures forall f :: f in r <==> f in files
    ensures forall i, j :: 0 <= i < j < |r| ==> r[i].number >= r[j].number
  {
    r := [];
    for n := 0 to |files|
      invariant forall f :: f in r <==> f in files[..n]
      invariant forall i, j :: 0 <= i < j < |r| ==> r[i].number >= r[j].number
    {
      assert files[..n + 1] == files[..n] + [files[n]];
      r := InsertNewest(r, files[n]);
    }
    assert files[..|files|] == files;
  }

  method InsertNewest(files: seq<File>, f: File) returns (r: seq<File>)
    requires forall i, j :: 0 <= i < j < |files| ==> files[i].number >= files[j].number
    ensures forall g :: g in r <==> g in files || g == f
    ensures forall i, j :: 0 <= i < j < |r| ==> r[i].number >= r[j].number
  {
    var at := 0;
    while at < |files| && files[at].number >= f.number
      invariant at <= |files|
      invariant forall i :: 0 <= i < at ==> files[i].number >= f.number
    {
      at := at + 1;
    }
    assert files == files[..at] + files[at..];
    r := files[..at] + [f] + files[at..];
  }

  /** No entry of `key` in the tables `files` is visible at `snapshot`. */
  ghost predicate Hidden(files: seq<File>, key: Slice, snapshot: nat)
  {
    forall f, x :: f in files && x in f.run && x.key == key ==> x.seqno > snapshot
  }

  /** Outside the table FindFile picks, a sorted level shows nothing newer at `snapshot`. */
  lemma OneFileIsEnough(files: seq<File>, key: Slice, snapshot: nat, index: nat, i: nat, x: Entry)
    requires AllOk(files)
    requires KeySorted(files) && index <= |files|
    requires forall j :: 0 <= j < index ==> ILess(files[j].largest, LookupKey(key, snapshot))
    requires forall j :: index <= j < |files| ==> !ILess(files[j].largest, LookupKey(key, snapshot))
    requires i < |files| && x in files[i].run && x.key == key && x.seqno <= snapshot
    ensures index <= i
    ensures files[index].Covers(key)
    ensures index < i ==> exists e :: e in files[index].run && e.key == key && x.seqno <= e.seqno <= snapshot
  {
    var k :| 0 <= k < |files[i].run| && files[i].run[k] == x;
    var target := LookupKey(key, snapshot);
    KeysInRange(files[i], k);
    IOrder(target, x.Ikey(), files[i].largest);
    IOrder(files[i].largest, target, target);
    assert index <= i;
    if index < i {
      var f := files[index];
      var last := f.run[|f.run| - 1];
      IOrder(f.largest, files[i].smallest, x.Ikey());
      Order(target.user, f.largest.user, x.key);
      assert last in f.run && last.key == key;
      KeysInRange(f, |f.run| - 1);
    }
  }

  /** The search in one sorted level: only the table FindFile picks is read. */
  function LevelAnswer(files: seq<File>, key: Slice, snapshot: nat): Option<Entry>
  {
    var at := FirstFile(files, LookupKey(key, snapshot), 0);
    if at < |files| && !Less(key, files[at].smallest.user) then Find(files[at].run, key, snapshot) else None
  }

  /** The search in level 0: the hit in the table with the highest number. */
  ghost predicate Level0Answer(files: seq<File>, key: Slice, snapshot: nat, r: Option<Entry>)
  {
    match r
    case None => forall f :: f in files && f.Covers(key) ==> Find(f.run, key, snapshot).None?
    case Some(_) => exists f :: f in files && f.Covers(key) && Find(f.run, key, snapshot) == r &&
                                forall g :: g in files && g.Covers(key) && g.number > f.number ==> Find(g.run, key, snapshot).None?
  }

  /** The first hit on the levels from `level` on. */
  function DeeperAnswer(v: Levels, key: Slice, snapshot: nat, level: nat): Option<Entry>
    decreases |v| - level
  {
    if level >= |v| then None else
      var here := LevelAnswer(v[level], key, snapshot);
      if here.Some? then here else DeeperAnswer(v, key, snapshot, level + 1)
  }

  /** What Version::Get finds. */
  ghost predicate Answer(v: Levels, key: Slice, snapshot: nat, r: Option<Entry>)
  {
    && v != []
    && (|| (r.Some? && Level0Answer(v[0], key, snapshot, r))
        || (Level0Answer(v[0], key, snapshot, None) && r == DeeperAnswer(v, key, snapshot, 1)))
  }

  method Level0Get(files: seq<File>, key: Slice, snapshot: nat) returns (found: Option<Entry>)
    requires forall f, g :: f in files && g in files && f.number == g.number ==> f == g
    ensures Level0Answer(files, key, snapshot, found)
  {
    hide Less, Find;
    var tmp := [];
    for i := 0 to |files|
      invariant forall f :: f in tmp <==> f in files[..i] && f.Covers(key)
    {
      assert files[..i + 1] == files[..i] + [files[i]];
      var f := files[i];
      if !Less(key, f.smallest.user) && !Less(f.largest.user, key) {
        tmp := tmp + [f];
      }
    }
    assert files[..|files|] == files;
    tmp := NewestFirst(tmp);
    for i := 0 to |tmp|
      invariant forall j :: 0 <= j < i ==> Find(tmp[j].run, key, snapshot).None?
    {
      assert tmp[i] in tmp;
      found := Find(tmp[i].run, key, snapshot);
      if found.Some? {
        return;
      }
    }
    found := None;
  }

  /** Version::Get: level by level, and within level 0 from the newest table to the oldest. */
  method Get(v: Levels, key: Slice, snapshot: nat) returns (found: Option<Entry>)
    requires FilesOk(v)
    ensures Answer(v, key, snapshot, found)
  {
    found := Level0Get(v[0], key, snapshot);
    if found.Some? {
      return;
    }
    for level := 1 to NUM_LEVELS
      invariant found.None?
      invariant DeeperAnswer(v, key, snapshot, 1) == DeeperAnswer(v, key, snapshot, level)
    {
      var index := FindFile(v[level], LookupKey(key, snapshot));
      if index < |v[level]| && !Less(key, v[level][index].smallest.user) {
        found := Find(v[level][index].run, key, snapshot);
        if found.Some? {
          return;
        }
      }
    }
  }

  lemma LevelAnswerIsNewest(files: seq<File>, key: Slice, snapshot: nat)
    requires AllOk(files) && KeySorted(files)
    ensures var r := LevelAnswer(files, key, snapshot);
            && (r.None? ==> Hidden(files, key, snapshot))
            && (r.Some? ==> NewestOf(files, key, snapshot, r.value))
  {
    var at := FirstFile(files, LookupKey(key, snapshot), 0);
    var found := LevelAnswer(files, key, snapshot);
    if at < |files| {
      FindIsNewest(files[at].run, key, snapshot);
      forall j | at <= j < |files|
        ensures !ILess(files[j].largest, LookupKey(key, snapshot))
      {
        if at < j {
          LargestIncrease(files, at, j);
          IOrder(files[at].largest, files[j].largest, LookupKey(key, snapshot));
        }
      }
    }
    forall f, x | f in files && x in f.run && x.key == key && x.seqno <= snapshot
      ensures found.Some? && x.seqno <= found.value.seqno
    {
      var i :| 0 <= i < |files| && files[i] == f;
      OneFileIsEnough(files, key, snapshot, at, i, x);
      assert at < |files|;
      if at < i {
        var e :| e in files[at].run && e.key == key && x.seqno <= e.seqno <= snapshot;
        assert e in Entries(files[at].run);
      } else {
        assert x in Entries(files[at].run);
      }
    }
  }

  /** `e` is held by one of the tables, and none of them shows anything newer at `snapshot`. */
  ghost predicate NewestOf(files: seq<File>, key: Slice, snapshot: nat, e: Entry)
  {
    && e.key == key && e.seqno <= snapshot
    && (exists f :: f in files && e in f.run)
    && (forall f, x :: f in files && x in f.run && x.key == key && x.seqno <= snapshot ==> x.seqno <= e.seqno)
  }

  lemma KeyHoldersCover(files: seq<File>, key: Slice)
    requires AllOk(files)
    ensures forall f, x :: f in files && x in f.run && x.key == key ==> f.Covers(key)
  {
    forall f, x | f in files && x in f.run && x.key == key
      ensures f.Covers(key)
    {
      var k :| 0 <= k < |f.run| && f.run[k] == x;
      KeysInRange(f, k);
    }
  }

  /** Level 0: nothing found means nothing visible. */
  lemma Level0Misses(files: seq<File>, key: Slice, snapshot: nat)
    requires AllOk(files) && Level0Answer(files, key, snapshot, None)
    ensures Hidden(files, key, snapshot)
  {
    KeyHoldersCover(files, key);
    forall f, x | f in files && x in f.run && x.key == key
      ensures x.seqno > snapshot
    {
      FindIsNewest(f.run, key, snapshot);
      assert x in Entries(f.run);
    }
  }

  lemma Level0Hidden(files: seq<File>, key: Slice, snapshot: nat)
    requires AllOk(files) && Hidden(files, key, snapshot)
    ensures Level0Answer(files, key, snapshot, None)
  {
    forall f | f in files
      ensures Find(f.run, key, snapshot).None?
    {
      var i :| 0 <= i < |files| && files[i] == f;
      HiddenFind(files, i, key, snapshot);
    }
  }

  lemma HiddenFind(files: seq<File>, i: nat, key: Slice, snapshot: nat)
    requires AllOk(files) && i < |files| && Hidden(files, key, snapshot)
    ensures Find(files[i].run, key, snapshot).None?
  {
    FindIsNewest(files[i].run, key, snapshot);
    assert files[i] in files;
  }

  /** Level 0: a hit is the newest visible entry of its table, and newer tables show nothing. */
  lemma Level0Hits(files: seq<File>, key: Slice, snapshot: nat, r: Option<Entry>) returns (f: File)
    requires AllOk(files) && r.Some? && Level0Answer(files, key, snapshot, r)
    ensures f in files && r.value in f.run && r.value.key == key && r.value.seqno <= snapshot
    ensures forall x :: x in f.run && x.key == key && x.seqno <= snapshot ==> x.seqno <= r.value.seqno
    ensures forall g, x :: g in files && g.number > f.number && x in g.run && x.key == key ==> x.seqno > snapshot
  {
    KeyHoldersCover(files, key);
    f :| f in files && f.Covers(key) && Find(f.run, key, snapshot) == r &&
         forall g :: g in files && g.Covers(key) && g.number > f.number ==> Find(g.run, key, snapshot).None?;
    FindIsNewest(f.run, key, snapshot);
    forall x | x in f.run ensures x in Entries(f.run) {}
    forall g, x | g in files && g.number > f.number && x in g.run && x.key == key
      ensures x.seqno > snapshot
    {
      FindIsNewest(g.run, key, snapshot);
      assert x in Entries(g.run);
    }
  }

  lemma AllLevels(v: Levels)
    requires FilesOk(v)
    ensures |v| == NUM_LEVELS && forall l :: 0 <= l < |v| ==> AllOk(v[l]) && (1 <= l ==> KeySorted(v[l]))
    ensures forall f, g :: f in v[0] && g in v[0] && f.number == g.number ==> f == g
  {
  }

  lemma OnLevel(v: Levels, key: Slice, snapshot: nat, level: nat)
    requires FilesOk(v) && 1 <= level < NUM_LEVELS
    ensures |v| == NUM_LEVELS
    ensures var r := LevelAnswer(v[level], key, snapshot);
            if r.None? then Hidden(v[level], key, snapshot) else NewestOf(v[level], key, snapshot, r.value)
  {
    LevelAnswerIsNewest(v[level], key, snapshot);
  }

  /** Where the search of the sorted levels stops: at the first one that shows anything. */
  lemma {:induction false} DeeperStops(v: Levels, key: Slice, snapshot: nat, level: nat) returns (l: nat)
    requires FilesOk(v) && 1 <= level <= NUM_LEVELS
    ensures level <= l <= NUM_LEVELS && forall m :: level <= m < l ==> Hidden(v[m], key, snapshot)
    ensures var r := DeeperAnswer(v, key, snapshot, level);
            if l < NUM_LEVELS then r.Some? && NewestOf(v[l], key, snapshot, r.value) else r.None?
    decreases NUM_LEVELS - level
  {
    hide LevelAnswer, Hidden, NewestOf, FilesOk;
    AllLevels(v);
    l := level;
    if level < NUM_LEVELS {
      OnLevel(v, key, snapshot, level);
      if LevelAnswer(v[level], key, snapshot).None? {
        l := DeeperStops(v, key, snapshot, level + 1);
      }
    }
  }

  /** The search goes past levels that show nothing and stops at the first other one. */
  lemma {:induction false} SearchStopsAt(v: Levels, key: Slice, snapshot: nat, from: nat, level: nat)
    requires FilesOk(v) && 1 <= from <= level < NUM_LEVELS && LevelAnswer(v[level], key, snapshot).Some?
    requires forall l :: from <= l < level ==> Hidden(v[l], key, snapshot)
    ensures DeeperAnswer(v, key, snapshot, from) == LevelAnswer(v[level], key, snapshot)
    decreases level - from
  {
    if from < level {
      LevelAnswerIsNewest(v[from], key, snapshot);
      SearchStopsAt(v, key, snapshot, from + 1, level);
    }
  }

  /** The search found `r` in table `f`, which lies above the table `g` with the newer entry `w`. */
  ghost predicate Misled(v: Levels, key: Slice, snapshot: nat, r: Entry, l: nat, f: File, w: Entry, m: nat, g: File)
  {
    && In(v, l, f) && In(v, m, g) && Above(l, f, m, g) && r in f.run && w in g.run
    && r.key == w.key == key && r.seqno < w.seqno <= snapshot
    && (1 <= l ==> NewestOf(v[l], key, snapshot, r))
  }

  /** What the search finds is stored, and what is newer in a table is not read at all. */
  lemma FoundIs(v: Levels, key: Slice, snapshot: nat, r: Option<Entry>) returns (l: nat, f: File)
    requires FilesOk(v) && Answer(v, key, snapshot, r) && r.Some?
    ensures In(v, l, f) && r.value in f.run && r.value.key == key && r.value.seqno <= snapshot
    ensures 1 <= l ==> NewestOf(v[l], key, snapshot, r.value)
    ensures forall m :: 0 <= m < l ==> Hidden(v[m], key, snapshot)
    ensures forall m: nat, g, w :: In(v, m, g) && w in g.run && w.key == key && r.value.seqno < w.seqno <= snapshot ==>
              Above(l, f, m, g)
  {
    hide FilesOk, AllOk, Hidden, NewestOf, KeySorted, Find;
    AllLevels(v);
    if Level0Answer(v[0], key, snapshot, r) {
      l := 0;
      f := Level0Hits(v[0], key, snapshot, r);
    } else {
      hide Level0Answer;
      Level0Misses(v[0], key, snapshot);
      l := DeeperStops(v, key, snapshot, 1);
      f := FoundOn(v, key, snapshot, l, r.value);
    }
  }

  /** The newest visible entry of a level, where no level above shows anything. */
  lemma FoundOn(v: Levels, key: Slice, snapshot: nat, l: nat, r: Entry) returns (f: File)
    requires 1 <= l < |v| && NewestOf(v[l], key, snapshot, r) && forall m :: 0 <= m < l ==> Hidden(v[m], key, snapshot)
    ensures In(v, l, f) && r in f.run && r.key == key && r.seqno <= snapshot
    ensures forall m: nat, g, w :: In(v, m, g) && w in g.run && w.key == key && r.seqno < w.seqno <= snapshot ==> Above(l, f, m, g)
  {
    hide Hidden;
    f :| f in v[l] && r in f.run;
    forall m: nat, g, w | In(v, m, g) && w in g.run && w.key == key && r.seqno < w.seqno <= snapshot
      ensures Above(l, f, m, g)
    {
      if m < l { HiddenIs(v[m], key, snapshot, g, w); }
    }
  }

  lemma NothingFound(v: Levels, key: Slice, snapshot: nat)
    requires FilesOk(v) && Answer(v, key, snapshot, None)
    ensures forall m :: 0 <= m < |v| ==> Hidden(v[m], key, snapshot)
  {
    Level0Misses(v[0], key, snapshot);
    var l := DeeperStops(v, key, snapshot, 1);
  }

  /** The search goes wrong only when an older entry lies above the newest visible one. */
  lemma SearchOrMisled(v: Levels, key: Slice, snapshot: nat, r: Option<Entry>, w: Option<Entry>)
    requires FilesOk(v) && Answer(v, key, snapshot, r) && Sees(Stored(v), key, snapshot, w)
    ensures Sees(Stored(v), key, snapshot, r)
         || (r.Some? && w.Some? && exists l, f, m, g :: Misled(v, key, snapshot, r.value, l, f, w.value, m, g))
  {
    hide FilesOk, Answer, Hidden, NewestOf, Above;
    if r.Some? {
      var l, f := FoundIs(v, key, snapshot, r);
      assert r.value in Stored(v);
      var m, g :| 0 <= m < |v| && g in v[m] && w.value in g.run;
      if r.value.seqno < w.value.seqno {
        assert In(v, m, g);
        assert Misled(v, key, snapshot, r.value, l, f, w.value, m, g);
      }
    } else if w.Some? {
      NothingFound(v, key, snapshot);
      var m, g :| 0 <= m < |v| && g in v[m] && w.value in g.run;
      HiddenIs(v[m], key, snapshot, g, w.value);
    }
  }

  lemma HiddenIs(files: seq<File>, key: Slice, snapshot: nat, g: File, x: Entry)
    requires Hidden(files, key, snapshot) && g in files && x in g.run && x.key == key
    ensures x.seqno > snapshot
  {
  }

  /** Searching level by level finds the newest visible entry of the whole version. */
  lemma AnswerIsNewest(v: Levels, floor: nat, key: Slice, snapshot: nat, r: Option<Entry>)
    requires FilesOk(v) && Recency(v, floor) && floor <= snapshot && Answer(v, key, snapshot, r)
    ensures Sees(Stored(v), key, snapshot, r)
  {
    hide FilesOk, Recency, Answer, Misled, Stored;
    var w := SomeAnswer(Stored(v), key, snapshot);
    SearchOrMisled(v, key, snapshot, r, w);
    if !Sees(Stored(v), key, snapshot, r) {
      var l, f, m, g :| Misled(v, key, snapshot, r.value, l, f, w.value, m, g);
      NotMisled(v, floor, key, snapshot, r.value, l, f, w.value, m, g);
    }
  }

  /** What misleads a search is superseded by something the search would see. */
  lemma NotMisled(v: Levels, floor: nat, key: Slice, snapshot: nat, r: Entry, l: nat, f: File, w: Entry, m: nat, g: File)
    requires Recency(v, floor) && Misled(v, key, snapshot, r, l, f, w, m, g)
    ensures Superseded(Stored(v), w, floor)
  {
    hide NewestOf, Stored;
    assert Newer(f, g, Stored(v), floor);
  }

  /** Every search has an answer, on level 0 and in a whole version. */
  lemma {:induction false} Level0Exists(files: seq<File>, key: Slice, snapshot: nat) returns (r: Option<Entry>)
    requires forall f, g :: f in files && g in files && f.number == g.number ==> f == g
    ensures Level0Answer(files, key, snapshot, r)
    decreases |files|
  {
    if files == [] {
      r := None;
    } else {
      var n := |files| - 1;
      assert files == files[..n] + [files[n]];
      r := Level0Exists(files[..n], key, snapshot);
      r := OneFileMore(files, key, snapshot, r);
    }
  }

  lemma OneFileMore(files: seq<File>, key: Slice, snapshot: nat, before: Option<Entry>) returns (r: Option<Entry>)
    requires files != [] && Level0Answer(files[..|files| - 1], key, snapshot, before)
    requires forall f, g :: f in files && g in files && f.number == g.number ==> f == g
    ensures Level0Answer(files, key, snapshot, r)
  {
    hide Find, File.Covers;
    var n := |files| - 1;
    var f := files[n];
    assert files == files[..n] + [f];
    r := before;
    if f.Covers(key) && Find(f.run, key, snapshot).Some? {
      if r.None? {
        r := Find(f.run, key, snapshot);
      } else {
        var g :| g in files[..n] && g.Covers(key) && Find(g.run, key, snapshot) == r &&
                 forall h :: h in files[..n] && h.Covers(key) && h.number > g.number ==> Find(h.run, key, snapshot).None?;
        if f.number > g.number { r := Find(f.run, key, snapshot); }
        assert forall h :: h in files ==> h in files[..n] || h == f;
      }
    }
  }

  lemma AnswerExists(v: Levels, key: Slice, snapshot: nat) returns (r: Option<Entry>)
    requires FilesOk(v)
    ensures Answer(v, key, snapshot, r)
  {
    r := Level0Exists(v[0], key, snapshot);
    if r.None? {
      r := DeeperAnswer(v, key, snapshot, 1);
    }
  }

  /** The first sorted level that shows an entry gives the answer. */
  lemma AnswerStopsAt(v: Levels, key: Slice, snapshot: nat, level: nat, f: File, x: Entry) returns (r: Entry)
    requires FilesOk(v) && 1 <= level < NUM_LEVELS && forall l :: 0 <= l < level ==> Hidden(v[l], key, snapshot)
    requires f in v[level] && x in f.run && x.key == key && x.seqno <= snapshot
    ensures Answer(v, key, snapshot, Some(r)) && NewestOf(v[level], key, snapshot, r)
  {
    hide FilesOk, AllOk, KeySorted, NewestOf, Find;
    AllLevels(v);
    OnLevel(v, key, snapshot, level);
    Level0Hidden(v[0], key, snapshot);
    SearchStopsAt(v, key, snapshot, 1, level);
    r := LevelAnswer(v[level], key, snapshot).value;
  }
}
