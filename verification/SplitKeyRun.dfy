/**
 * A run in which a deleted value comes back: a held snapshot makes a compaction split a user key
 * over two tables, and a trivial move then takes the newer half down a level (db/version_set.cc).
 */
module SplitKeyRun {
  import opened Bytes
  import opened InternalKeys
  import opened Version
  import opened Inputs
  import opened Picking
  import opened Compaction
  import opened Installing
  import opened History
  import opened VersionReads
  import opened Builder
  import opened Manifests
  import opened Engine
  import opened Runs
  import opened BoundaryKeys
  import opened Resurfacing

  const PUT := Entry([], 1, Value, [])
  const DELETE := Entry([], 2, Deletion, [])

  function Table(number: nat, e: Entry): File { NewFile(number, 1, [e]) }

  lemma TableFacts(number: nat, e: Entry)
    requires e.key == [] && e.seqno <= MAX_SEQUENCE
    ensures FileOk(Table(number, e)) && Table(number, e).Covers([])
    ensures Table(number, e).smallest == Table(number, e).largest == IKey([], Tag(e.seqno, e.kind))
  {
  }

  // ------------------------------------------------------------------ the states of the run

  /** A database just created. */
  function Created(): Db
  {
    Db([], None, NoLevels(), 0, 4, 3, 0, [], [], None, NewManifest(NoLevels(), Edit({}, []), 3, 0, 4), map[3 := []], [], 0, 0, 0)
  }

  /** `s` once the group of one operation is in the log. */
  function InLog(s: Db, op: Op): Db
  {
    var batch := [EntryOf(op, s.lastSequence + 1)];
    s.(pending := batch, logs := s.logs[s.logFile := (if s.logFile in s.logs then s.logs[s.logFile] else []) + [batch]])
  }

  /** `s` once the pending group is in an empty memtable. */
  function InMemory(s: Db): Db
  {
    s.(mem := s.pending, pending := [], lastSequence := s.lastSequence + |s.pending|, history := s.history + s.pending)
  }

  function FlushedTo(s: Db, version: Levels, level: nat, f: File): Db
  {
    Logged(s, version, Edit({}, [(level, f)]), s.logFile, s.nextFile + 1).(imm := None, flushed := s.sealed)
  }

  function Held(): Db { InMemory(InLog(Created(), Put([], []))).(snapshots := [1]) }

  function PutVersion(): Levels { NoLevels()[2 := [Table(5, PUT)]] }

  function PutFlushed(): Db { FlushedTo(Switched(Held()), PutVersion(), 2, Table(5, PUT)) }

  function Deleted(): Db { InMemory(InLog(PutFlushed(), Delete([]))) }

  function BothVersion(): Levels { PutVersion()[1 := [Table(7, DELETE)]] }

  function BothFlushed(): Db { FlushedTo(Switched(Deleted()), BothVersion(), 1, Table(7, DELETE)) }

  function Job(): Running { Running(BothVersion(), 1, [Table(7, DELETE)], [Table(5, PUT)], 1) }

  function Started(): Db { BothFlushed().(running := Some(Job()), floor := 1) }

  function Halves(): seq<File> { [Table(8, DELETE), Table(9, PUT)] }

  function SplitVersion(): Levels { NoLevels()[2 := Halves()] }

  function Finished(): Db
  {
    Logged(Started(), SplitVersion(), InstallEdit(Job(), Halves()), 6, 10).(running := None)
  }

  function Released(): Db { Finished().(snapshots := []) }

  function MovedVersion(): Levels { NoLevels()[2 := [Table(9, PUT)]][3 := [Table(8, DELETE)]] }

  function Moved(): Db
  {
    Logged(Released(), MovedVersion(), MoveEdit(2, Table(8, DELETE)), 6, 10).(floor := 2)
  }

  function States(): seq<Db>
  {
    [Created(), InLog(Created(), Put([], [])), InMemory(InLog(Created(), Put([], []))), Held(), Switched(Held()), PutFlushed(),
     InLog(PutFlushed(), Delete([])), Deleted(), Switched(Deleted()), BothFlushed(), Started(), Finished(), Released()]
  }

  // ------------------------------------------------------------------ its steps

  lemma LogOne(s: Db, op: Op)
    requires s.pending == [] && s.lastSequence + 1 < MAX_SEQUENCE && s.logFile in s.logs
    ensures Next(s, InLog(s, op))
  {
    assert [op][..0] == [];
    assert Numbering([op], s.lastSequence + 1) == [EntryOf(op, s.lastSequence + 1)];
    assert AppendLog(s, InLog(s, op), [op]);
  }

  lemma ApplyOne(s: Db, e: Entry)
    requires s.pending == [e] && s.mem == []
    ensures Next(s, InMemory(s))
  {
    assert Entries([]) == {};
    assert ApplyBatch(s, InMemory(s));
  }

  lemma Switch(s: Db)
    requires s.imm.None? && s.pending == []
    ensures Next(s, Switched(s))
  {
    assert SwitchMemTable(s, Switched(s));
  }

  lemma Flush(s: Db, version: Levels, level: nat, f: File)
    requires s.imm.Some? && s.imm.value != [] && FileOk(f) && f.number == s.nextFile && f.run == s.imm.value
    requires Lands(s.version, level, f) && Edited(s.version, version, Edit({}, [(level, f)]))
    ensures Next(s, FlushedTo(s, version, level, f))
  {
    assert FlushImm(s, FlushedTo(s, version, level, f), level, f);
  }

  lemma OneInOrder(f: File)
    ensures InOrder([f]) && InOrder([])
  {
  }

  lemma HalvesInOrder()
    ensures InOrder(Halves()) && KeySorted(Halves()) && AllOk(Halves())
  {
    TableFacts(8, DELETE);
    TableFacts(9, PUT);
  }

  lemma PutEdited()
    ensures Edited(NoLevels(), PutVersion(), Edit({}, [(2, Table(5, PUT))])) && Lands(NoLevels(), 2, Table(5, PUT))
  {
    hide Table;
    NoLevelsHold();
    OneInOrder(Table(5, PUT));
  }

  lemma BothEdited()
    ensures Edited(PutVersion(), BothVersion(), Edit({}, [(1, Table(7, DELETE))])) && Lands(PutVersion(), 1, Table(7, DELETE))
  {
    hide Table;
    NoLevelsHold();
    OneInOrder(Table(5, PUT));
    OneInOrder(Table(7, DELETE));
  }

  lemma StartIsGood()
    ensures GoodInputs(BothVersion(), 1, [Table(7, DELETE)], [Table(5, PUT)])
    ensures NothingResurfaces(BothVersion(), 1, [Table(7, DELETE)], [Table(5, PUT)], 1)
  {
    var d, p := Table(7, DELETE), Table(5, PUT);
    TableFacts(7, DELETE);
    TableFacts(5, PUT);
    hide Table;
    var ins := [d] + [p];
    assert d in ins;
    forall f
      ensures f in [p] <==> f in BothVersion()[2] && TouchesHull([d], f)
    {
      assert d in [d];
    }
    forall k | InHull(ins, k)
      ensures d.Covers(k)
    {
    }
    assert Rest(BothVersion(), 1, [d], [p]) == {};
  }

  lemma KeepsBoth()
    ensures Kept(BothVersion(), 1, [DELETE, PUT], 1, 2) == [DELETE, PUT] == Flat(Halves())
    ensures IsMerge([DELETE, PUT], [Table(7, DELETE)] + [Table(5, PUT)])
  {
    KeptBoth();
    hide Kept, Union, Table;
    assert Halves()[..1] == [Table(8, DELETE)] && [Table(8, DELETE)][..0] == [];
    assert Flat([Table(8, DELETE)]) == [DELETE] by { TableRun(8, DELETE); }
    TableRun(9, PUT);
    TableRun(7, DELETE);
    TableRun(5, PUT);
    UnionOfTwo(Table(7, DELETE), Table(5, PUT), DELETE, PUT);
  }

  lemma TableRun(number: nat, e: Entry)
    ensures Table(number, e).run == [e]
  {
  }

  lemma KeptBoth()
    ensures Kept(BothVersion(), 1, [DELETE, PUT], 1, 2) == [DELETE, PUT]
  {
    var merged := [DELETE, PUT];
    assert Kept(BothVersion(), 1, merged, 1, 0) == [];
    assert Kept(BothVersion(), 1, merged, 1, 1) == [DELETE];
  }

  lemma UnionOfTwo(f: File, g: File, a: Entry, b: Entry)
    requires f.run == [a] && g.run == [b]
    ensures Union([f] + [g]) == Entries([a, b])
  {
    var files := [f] + [g];
    assert files[0] == f && files[1] == g && a in f.run && b in g.run;
  }

  lemma FinishEdited()
    ensures Edited(BothVersion(), SplitVersion(), InstallEdit(Job(), Halves()))
  {
    NoLevelsHold();
    OneInOrder(Table(5, PUT));
    OneInOrder(Table(7, DELETE));
    HalvesInOrder();
    var e := InstallEdit(Job(), Halves());
    assert e.deleted == {(1, 7), (2, 5)};
    assert e.added == [(2, Table(8, DELETE)), (2, Table(9, PUT))];
  }

  lemma FinishStep()
    ensures Next(Started(), Finished())
  {
    hide Edited, Kept, Flat, Table, InstallEdit, NoLevels, NewManifest, CountersOf;
    KeepsBoth();
    FinishEdited();
    HalvesInOrder();
    TableNumbers();
    ManifestLog();
    assert FinishCompaction(Started(), Finished(), [DELETE, PUT], Halves(), 8, 10);
  }

  lemma TableNumbers()
    ensures Table(8, DELETE).number == 8 && Table(9, PUT).number == 9
  {
  }

  lemma ManifestLog()
    ensures CountersOf(Started().manifest).logNumber == 6 && CountersOf(Released().manifest).logNumber == 6
  {
    var m := Started().manifest;
    assert m[|m| - 1].logNumber == Some(6);
    var n := Released().manifest;
    assert n[|n| - 1].logNumber == Some(6);
  }

  lemma MoveEdited()
    ensures Edited(SplitVersion(), MovedVersion(), MoveEdit(2, Table(8, DELETE)))
  {
    hide InOrder;
    var a, b := Table(8, DELETE), Table(9, PUT);
    NoLevelsHold();
    HalvesInOrder();
    OneInOrder(a);
    OneInOrder(b);
    assert Halves()[0] == a && Halves()[1] == b;
    var e := MoveEdit(2, a);
    assert e.added == [(3, a)] && e.deleted == {(2, 8)};
  }

  lemma MoveIsGood()
    ensures GoodInputs(SplitVersion(), 2, [Table(8, DELETE)], [])
  {
    var a := Table(8, DELETE);
    TableFacts(8, DELETE);
    NoLevelsHold();
    assert Halves()[0] == a;
    ConnectedOne(a);
    assert [a] + [] == [a];
  }

  /** The move of the deletion's half. In Next it would be guarded; the code does it. */
  lemma MoveStep()
    ensures MoveTable(Released(), Moved(), 2, Table(8, DELETE)) && Step(Released(), Moved())
  {
    hide Edited, GoodInputs, SplitVersion, MovedVersion, NewManifest, Table, CountersOf, InstallEdit;
    ManifestLog();
    MoveEdited();
    MoveIsGood();
    assert MoveTable(Released(), Moved(), 2, Table(8, DELETE));
  }

  /** The search at the last sequence number stops at the value's half. */
  lemma StaleAnswer()
    ensures Answer(MovedVersion(), [], 2, Some(PUT))
  {
    var b := Table(9, PUT);
    TableFacts(9, PUT);
    NoLevelsHold();
    var v := MovedVersion();
    var target := LookupKey([], 2);
    assert FirstFile([b], target, 0) == 0;
    assert SeekFrom([PUT], target, 0) == 0;
    assert LevelAnswer(v[2], [], 2) == Some(PUT);
    assert LevelAnswer(v[1], [], 2) == None;
    assert DeeperAnswer(v, [], 2, 2) == Some(PUT);
    assert DeeperAnswer(v, [], 2, 1) == Some(PUT);
    assert Level0Answer(v[0], [], 2, None);
  }

  lemma DeletedInHistory()
    ensures Moved().history == [PUT, DELETE] && Read([PUT, DELETE], [], 2) == None
  {
    NothingLeft();
    assert [PUT, DELETE][..2] == [PUT, DELETE];
    hide Contents, PutVersion, SplitVersion, MovedVersion, NewManifest, Table;
  }

  lemma NothingLeft()
    ensures Contents([PUT, DELETE]) == map[]
  {
    var h := [PUT, DELETE];
    assert h[..1] == [PUT] && [PUT][..0] == [];
    assert Contents([PUT]) == map[[] := []];
  }

  lemma StatesRun()
    ensures Run(States())
  {
    hide Edited, Lands, Table, NoLevels, NewManifest, Next, PutVersion, BothVersion, SplitVersion;
    var states := States();
    PutSteps();
    HoldStep();
    Switch(Held());
    FlushPut();
    DeleteSteps();
    Switch(Deleted());
    FlushDelete();
    StartStep();
    FinishStep();
    ReleaseStep();
    assert Init(Created());
  }

  lemma PutSteps()
    ensures Next(Created(), InLog(Created(), Put([], [])))
    ensures Next(InLog(Created(), Put([], [])), InMemory(InLog(Created(), Put([], []))))
  {
    hide NoLevels, NewManifest, Next;
    LogOne(Created(), Put([], []));
    ApplyOne(InLog(Created(), Put([], [])), PUT);
  }

  lemma DeleteSteps()
    ensures Next(PutFlushed(), InLog(PutFlushed(), Delete([])))
    ensures Next(InLog(PutFlushed(), Delete([])), Deleted())
  {
    hide PutVersion, Table, NewManifest, Next;
    LogOne(PutFlushed(), Delete([]));
    ApplyOne(InLog(PutFlushed(), Delete([])), DELETE);
  }

  lemma HoldStep()
    ensures Next(InMemory(InLog(Created(), Put([], []))), Held())
  {
    assert TakeSnapshot(InMemory(InLog(Created(), Put([], []))), Held());
  }

  lemma FlushPut()
    ensures Next(Switched(Held()), PutFlushed())
  {
    hide Edited, Lands, PutVersion, NewManifest;
    PutEdited();
    TableFacts(5, PUT);
    Flush(Switched(Held()), PutVersion(), 2, Table(5, PUT));
  }

  lemma FlushDelete()
    ensures Next(Switched(Deleted()), BothFlushed())
  {
    hide Edited, Lands, PutVersion, BothVersion, NewManifest;
    BothEdited();
    TableFacts(7, DELETE);
    Flush(Switched(Deleted()), BothVersion(), 1, Table(7, DELETE));
  }

  lemma StartStep()
    ensures Next(BothFlushed(), Started())
  {
    hide GoodInputs, NothingResurfaces, BothVersion, Table, NewManifest;
    StartIsGood();
    assert StartCompaction(BothFlushed(), Started(), 1, [Table(7, DELETE)], [Table(5, PUT)]);
  }

  lemma ReleaseStep()
    ensures Next(Finished(), Released())
  {
    assert ReleaseSnapshot(Finished(), Released(), 0);
  }

  /** After the run `states` and the move of a table, a read of `key` finds a value that was deleted. */
  ghost predicate Returns(states: seq<Db>, s': Db, level: nat, f: File, key: Slice, r: Option<Entry>)
  {
    && Run(states) && MoveTable(states[|states| - 1], s', level, f)
    && Readable(s', s'.lastSequence) && GetAnswers(s'.mem, s'.imm, s'.version, key, s'.lastSequence, r)
    && Outcome(r).Some? && Read(s'.history, key, s'.lastSequence) == None
  }

  /**
   * A version that misleads readers is reached by a run all of whose steps are harmless, followed by
   * one trivial move: the key was deleted, and Get finds its value.
   */
  lemma DeletedValueReturns()
    ensures exists states, s', level, f, key, r :: Returns(states, s', level, f, key, r)
  {
    hide Answer, Run, Edited, GoodInputs, NewManifest, MoveTable, Read, MovedVersion, SplitVersion;
    StatesRun();
    MoveStep();
    StaleAnswer();
    DeletedInHistory();
    MovedState();
    assert GetAnswers(Moved().mem, Moved().imm, Moved().version, [], 2, Some(PUT));
    assert Returns(States(), Moved(), 2, Table(8, DELETE), [], Some(PUT));
  }

  lemma MovedState()
    ensures Moved().mem == [] && Moved().imm == None && Moved().version == MovedVersion() && Moved().lastSequence == 2
    ensures States()[|States()| - 1] == Released() && Find([], [], 2) == None
  {
    hide NewManifest;
  }

  // ------------------------------------------------------------------ a split key on the next level

  const K: Slice := [0]
  const A_NEW := Entry([], 10, Value, [])
  const A_OLD := Entry([], 3, Value, [])
  const K_DELETED := Entry(K, 8, Deletion, [])
  const K_VALUE := Entry(K, 5, Value, [])

  function Upper(): File { NewFile(1, 1, [A_NEW]) }

  function Lower(): File { NewFile(2, 1, [A_OLD, K_DELETED]) }

  function LowerNext(): File { NewFile(3, 1, [K_VALUE]) }

  function TwoLevels(): Levels { NoLevels()[1 := [Upper()]][2 := [Lower(), LowerNext()]] }

  lemma LowerFacts()
    ensures FileOk(Upper()) && FileOk(Lower()) && FileOk(LowerNext())
    ensures KeySorted([Lower(), LowerNext()]) && InOrder([Lower(), LowerNext()])
    ensures Upper().smallest == Upper().largest == A_NEW.Ikey()
    ensures Lower().smallest == A_OLD.Ikey() && Lower().largest == K_DELETED.Ikey()
    ensures LowerNext().smallest == LowerNext().largest == K_VALUE.Ikey()
    ensures Less([], K) && !Less(K, []) && !Less([], []) && !Less(K, K)
  {
    LessIrreflexive(K);
  }

  lemma LowerRuns()
    ensures forall e :: e in Upper().run <==> e == A_NEW
    ensures forall e :: e in Lower().run <==> e == A_OLD || e == K_DELETED
    ensures forall e :: e in LowerNext().run <==> e == K_VALUE
    ensures Upper() != Lower() && Lower() != LowerNext()
  {
    assert Lower().run[0] == A_OLD && Lower().run[1] == K_DELETED && Upper().run[0] == A_NEW && LowerNext().run[0] == K_VALUE;
  }

  lemma LowerTables()
    ensures |TwoLevels()| == NUM_LEVELS && TwoLevels()[1] == [Upper()] && TwoLevels()[2] == [Lower(), LowerNext()]
    ensures forall l: nat, f :: In(TwoLevels(), l, f) <==> (l == 1 && f == Upper()) || (l == 2 && (f == Lower() || f == LowerNext()))
  {
    NoLevelsHold();
    assert TwoLevels()[2][0] == Lower() && TwoLevels()[2][1] == LowerNext();
  }

  lemma LowerShape()
    ensures FilesOk(TwoLevels()) && Recency(TwoLevels(), 0) && Once(TwoLevels()) && Distinct(Stored(TwoLevels()))
  {
    hide *;
    LowerFilesOk();
    LowerRecency();
    LowerOnce();
    LowerDistinct();
  }

  lemma LowerRecency()
    ensures Recency(TwoLevels(), 0)
  {
    hide Upper, Lower, LowerNext, TwoLevels, Superseded;
    LowerRuns();
    LowerTables();
    var v := TwoLevels();
    forall l: nat, f, m: nat, g | In(v, l, f) && In(v, m, g) && Above(l, f, m, g)
      ensures Newer(f, g, Stored(v), 0)
    {
      assert f == Upper() && (g == Lower() || g == LowerNext());
    }
  }

  lemma LowerOnce()
    ensures Once(TwoLevels())
  {
    hide Upper, Lower, LowerNext, TwoLevels;
    LowerRuns();
    LowerTables();
  }

  lemma LowerDistinct()
    ensures Distinct(Stored(TwoLevels()))
  {
    hide Stored;
    LowerEntries();
  }

  lemma LowerEntries()
    ensures forall e :: e in Stored(TwoLevels()) ==> e == A_NEW || e == A_OLD || e == K_DELETED || e == K_VALUE
  {
    hide Upper, Lower, LowerNext, TwoLevels;
    LowerRuns();
    LowerTables();
    var v := TwoLevels();
    forall e | e in Stored(v)
      ensures e == A_NEW || e == A_OLD || e == K_DELETED || e == K_VALUE
    {
      var l: nat, f: File :| 0 <= l < |v| && f in v[l] && e in f.run;
      assert In(v, l, f);
    }
  }

  lemma LowerFilesOk()
    ensures FilesOk(TwoLevels())
  {
    hide Upper, Lower, LowerNext, FileOk;
    LowerFacts();
    NoLevelsHold();
  }

  lemma LowerIsPicked()
    ensures GoodInputs(TwoLevels(), 1, [Upper()], [Lower()])
  {
    var v, u, l, n := TwoLevels(), Upper(), Lower(), LowerNext();
    LowerFacts();
    NoLevelsHold();
    hide Upper, Lower, LowerNext, Less;
    var ins := [u] + [l];
    assert u in [u] && l in ins && u in ins;
    forall f
      ensures f in [l] <==> f in v[2] && TouchesHull([u], f)
    {
    }
    forall k | InHull(ins, k)
      ensures l.Covers(k)
    {
      Order([], k, K);
      Order(k, [], K);
    }
  }

  /**
   * The inputs of the level end between user keys, yet the compaction makes a value reappear: the
   * dropped marker is the last entry of an input of the next level, the value is in the table after it.
   */
  lemma MarkerUncoversValue()
    ensures FilesOk(TwoLevels()) && Recency(TwoLevels(), 0) && Once(TwoLevels()) && Distinct(Stored(TwoLevels()))
    ensures GoodInputs(TwoLevels(), 1, [Upper()], [Lower()]) && !Continued(TwoLevels()[1], [Upper()])
    ensures Uncovers(TwoLevels(), 1, [Upper()], [Lower()], Markers(TwoLevels(), 1, [Upper()] + [Lower()], 10), 10, K_DELETED, K_VALUE)
  {
    hide Upper, Lower, LowerNext, TwoLevels, GoodInputs, Less, FilesOk, Recency, Once, Distinct;
    var v, ins := TwoLevels(), [Upper()] + [Lower()];
    LowerFacts();
    LowerRuns();
    LowerTables();
    LowerEntries();
    LowerShape();
    LowerIsPicked();
    assert Lower() in ins && K_DELETED in Lower().run;
    assert BaseLevel(v, 1, K) by {
      assert forall l, i :: 3 <= l < |v| && 0 <= i < |v[l]| ==> In(v, l, v[l][i]);
    }
    assert Obsolete(v, 1, K_DELETED, 10);
    assert LowerNext() in v[2] && K_VALUE in LowerNext().run;
    LowerLeft();
  }

  lemma LowerLeft()
    ensures LeftOn(TwoLevels(), 1, [Upper()]) == {} && K_VALUE in LeftOn(TwoLevels(), 2, [Lower()])
    ensures forall e :: e in LeftOn(TwoLevels(), 2, [Lower()]) ==> e == K_VALUE
  {
    hide Upper, Lower, LowerNext, TwoLevels;
    LowerRuns();
    LowerTables();
    assert LowerNext() in TwoLevels()[2] && LowerNext() !in [Lower()] && K_VALUE in LowerNext().run;
  }
}
