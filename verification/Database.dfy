/** DBImpl: the methods behind the steps of the engine (db/db_impl.cc). */
module Database {
  import opened Bytes
  import opened InternalKeys
  import opened Version
  import opened Inputs
  import opened Picking
  import opened Compaction
  import opened Installing
  import opened History
  import opened VersionReads
  import opened Builder
  import opened Manifests
  import opened Engine
  import opened Runs

  /** MemTable::Add: the entry goes to its place in internal-key order. */
  method MemTableAdd(run: seq<Entry>, e: Entry) returns (r: seq<Entry>)
    requires Sorted(run)
    requires forall x :: x in run ==> x.Ikey() != e.Ikey()
    ensures Sorted(r) && Entries(r) == Entries(run) + {e}
  {
    var at := SeekFrom(run, e.Ikey(), 0);
    r := run[..at] + [e] + run[at..];
    assert run == run[..at] + run[at..];
    InsertedSorted(run, e, at);
  }

  lemma InsertedSorted(run: seq<Entry>, e: Entry, at: nat)
    requires Sorted(run) && at <= |run|
    requires forall x :: x in run ==> x.Ikey() != e.Ikey()
    requires forall i :: 0 <= i < at ==> ILess(run[i].Ikey(), e.Ikey())
    requires at < |run| ==> !ILess(run[at].Ikey(), e.Ikey())
    ensures Sorted(run[..at] + [e] + run[at..])
  {
    var r := run[..at] + [e] + run[at..];
    if at < |run| {
      assert run[at] in run;
      IOrder(run[at].Ikey(), e.Ikey(), e.Ikey());
    }
    forall i, j | 0 <= i < j < |r|
      ensures ILess(r[i].Ikey(), r[j].Ikey())
    {
      if i == at {
        IOrder(e.Ikey(), run[at].Ikey(), run[j - 1].Ikey());
      } else if i < at < j {
        assert ILess(run[i].Ikey(), run[j - 1].Ikey());
      }
    }
  }

  /** MemTableInserter over a numbered batch. */
  method InsertEntries(run: seq<Entry>, batch: seq<Entry>) returns (r: seq<Entry>)
    requires Sorted(run)
    requires forall x, i :: x in run && 0 <= i < |batch| ==> x.seqno != batch[i].seqno
    requires forall i, j :: 0 <= i < j < |batch| ==> batch[i].seqno != batch[j].seqno
    ensures Sorted(r) && Entries(r) == Entries(run) + Entries(batch)
  {
    r := run;
    for i := 0 to |batch|
      invariant Sorted(r) && Entries(r) == Entries(run) + Entries(batch[..i])
    {
      assert batch[..i + 1] == batch[..i] + [batch[i]];
      forall x | x in r
        ensures x.Ikey() != batch[i].Ikey()
      {
        assert x in Entries(r);
      }
      r := MemTableAdd(r, batch[i]);
    }
    assert batch[..|batch|] == batch;
  }

  class DBImpl {
    var mem: seq<Entry>
    var imm: Option<seq<Entry>>
    var version: Levels
    var lastSequence: nat
    var nextFile: nat
    var logFile: nat
    var pending: seq<Entry>
    var snapshots: seq<nat>
    var running: Option<Running>
    var manifest: Manifest
    var logs: map<nat, seq<seq<Entry>>>
    ghost var immLog: nat
    ghost var history: seq<Entry>
    ghost var flushed: nat
    ghost var sealed: nat
    ghost var floor: nat

    ghost function State(): Db
      reads this
    {
      Db(mem, imm, version, lastSequence, nextFile, logFile, immLog, pending, snapshots, running, manifest, logs,
         history, flushed, sealed, floor)
    }

    ghost predicate Valid()
      reads this
    {
      Inv(State())
    }

    /** NewDB and the first Open. */
    constructor ()
      ensures Valid() && Init(State())
    {
      mem, imm, version := [], None, NoLevels();
      lastSequence, nextFile, logFile, pending, snapshots, running := 0, 4, 3, [], [], None;
      manifest := NewManifest(NoLevels(), Edit({}, []), 3, 0, 4);
      logs := map[3 := []];
      immLog, history, flushed, sealed, floor := 0, [], 0, 0, 0;
      new;
      InitInv(State());
    }

    /** Get at a snapshot reads are promised for. */
    method Get(key: Slice, snapshot: nat) returns (r: Option<Slice>)
      requires Valid() && floor <= snapshot
      ensures r == Read(history, key, snapshot)
    {
      var found := Find(mem, key, snapshot);
      if found.None? && imm.Some? {
        found := Find(imm.value, key, snapshot);
      }
      if found.None? {
        found := Version.Get(version, key, snapshot);
      }
      GetIsRight(State(), key, snapshot, found);
      r := Outcome(found);
    }

    /** Write, first half: the leader logs the group. */
    method LogGroup(ops: seq<Op>)
      requires Valid() && pending == [] && ops != [] && lastSequence + |ops| < MAX_SEQUENCE
      modifies this
      ensures Valid() && AppendLog(old(State()), State(), ops)
    {
      hide Faithful, RunningInv, SnapshotsInv, Describes;
      ghost var s := State();
      var batch := Numbering(ops, lastSequence + 1);
      logs := logs[logFile := logs[logFile] + [batch]];
      pending := batch;
      AppendLogKeeps(s, State(), ops);
    }

    /** Write, second half: the group goes into the memtable. */
    method ApplyGroup()
      requires Valid() && pending != []
      modifies this
      ensures Valid() && ApplyBatch(old(State()), State())
      ensures history == old(history) + old(pending)
    {
      hide DiskInv, Faithful, RunningInv, SnapshotsInv;
      ghost var s := State();
      PendingIsNew(s);
      mem := InsertEntries(mem, pending);
      history := history + pending;
      lastSequence := lastSequence + |pending|;
      pending := [];
      ApplyBatchKeeps(s, State());
    }

    /** MakeRoomForWrite with no immutable memtable in the way. */
    method MakeRoom()
      requires Valid() && imm.None? && pending == []
      modifies this
      ensures Valid() && SwitchMemTable(old(State()), State())
    {
      hide Inv;
      ghost var s := State();
      OpenLog();
      imm, mem, nextFile, sealed := Some(mem), [], nextFile + 1, |history|;
      SwitchKeeps(s, State());
    }

    /** A new log file under the next number. */
    method OpenLog()
      modifies this`logs, this`immLog, this`logFile
      ensures logs == old(logs)[nextFile := []] && immLog == old(logFile) && logFile == nextFile
    {
      logs, immLog, logFile := logs[nextFile := []], logFile, nextFile;
    }

    /** LogAndApply: the edit gives the new version, and a record of it goes to the manifest. */
    method LogAndApply(e: Edit, logNumber: nat, next: nat)
      requires Ordered(version) && EditOk(e)
      requires forall l: nat, f, g :: l < NUM_LEVELS && (l, f) in e.added && g in version[l] ==> f.number != g.number
      modifies this`version, this`nextFile, this`manifest
      ensures State() == Logged(old(State()), version, e, logNumber, next)
      ensures Edited(old(version), version, e)
    {
      version := ApplyEdit(version, e);
      nextFile := next;
      manifest := manifest + [Record(e, Some(logNumber), Some(lastSequence), Some(next))];
    }

    /** WriteLevel0Table: the table of the immutable memtable and the level it goes to; an empty one leaves none. */
    method WriteLevel0Table(size: nat, maxGrandparentBytes: nat) returns (level: nat, f: File)
      requires Valid() && imm.Some?
      ensures imm.value != [] ==> FileOk(f) && f.number == nextFile && f.run == imm.value && Lands(version, level, f)
    {
      hide Inv, Lands, FileOk;
      level, f := 0, File(0, 0, IKey([], 0), IKey([], 0), []);
      if imm.value != [] {
        VersionFacts(State());
        f := NewFile(nextFile, size, imm.value);
        ImmFile(State(), f);
        level := PickLevelForMemTableOutput(version, f.smallest.user, f.largest.user, maxGrandparentBytes);
        AllLevels(version);
        PickedLevelLands(version, level, f);
      }
    }

    /** CompactMemTable: the immutable memtable becomes a table, and its log is done with. */
    method CompactMemTable(size: nat, maxGrandparentBytes: nat)
      requires Valid() && imm.Some?
      modifies this
      ensures Valid() && exists level, f :: FlushImm(old(State()), State(), level, f)
    {
      hide Inv, Edited, Ordered, EditOk, FlushImm, Lands, FileOk, FlushEdit;
      ghost var s := State();
      var level, f := WriteLevel0Table(size, maxGrandparentBytes);
      FlushCanBeLogged(s, level, f);
      LogAndApply(FlushEdit(imm.value, level, f), logFile, nextFile + 1);
      imm, flushed := None, sealed;
      IsFlush(s, State(), level, f);
      FlushKeeps(s, State(), level, f);
    }

    /**
     * BackgroundCompaction up to the point where inputs are pinned, or the trivial move. The inputs
     * are whatever PickCompaction picks; the database stays valid if nothing can resurface.
     */
    method BackgroundCompaction(level: nat, i: nat, expandLimit: nat, maxGrandparentBytes: nat)
      requires Valid() && running.None? && level + 1 < NUM_LEVELS && i < |version[level]|
      modifies this
      ensures (exists f :: MoveTable(old(State()), State(), level, f)
                           && (NonePassed(old(version), level, [f], Oldest(old(State()))) ==> Valid()))
           || (exists in0, in1 :: StartCompaction(old(State()), State(), level, in0, in1)
                           && (NothingResurfaces(old(version), level, in0, in1, Oldest(old(State()))) ==> Valid()))
    {
      hide Inv, Edited, Ordered, EditOk, MoveTable, GoodInputs, NonePassed, NothingResurfaces;
      ghost var s := State();
      VersionFacts(s);
      var c := PickCompaction(version, level, i, expandLimit);
      var smallest := if snapshots == [] then lastSequence else snapshots[0];
      if |c.in0| == 1 && |c.in1| == 0 && TotalFileSize(c.grandparents) <= maxGrandparentBytes {
        var f := c.in0[0];
        assert c.in0 == [f] && c.in1 == [];
        MoveCanBeLogged(s, level, f);
        var logNumber := CountersOf(manifest).logNumber;
        LogAndApply(MoveEdit(level, f), logNumber, nextFile);
        floor := Max(floor, smallest);
        IsMove(s, State(), level, f);
        if NonePassed(s.version, level, [f], Oldest(s)) {
          MoveKeeps(s, State(), level, f);
        }
      } else {
        running := Some(Running(version, level, c.in0, c.in1, smallest));
        floor := Max(floor, smallest);
        assert StartCompaction(s, State(), level, c.in0, c.in1);
        if NothingResurfaces(s.version, level, c.in0, c.in1, Oldest(s)) {
          StartKeeps(s, State(), level, c.in0, c.in1);
        }
      }
    }

    /** DoCompactionWork and InstallCompactionResults, over what the merging iterator yields. */
    method FinishRunning(merged: seq<Entry>, stopBefore: nat -> bool, full: nat -> bool, sizeOf: seq<Entry> -> nat)
      requires Valid() && running.Some? && IsMerge(merged, running.value.in0 + running.value.in1)
      modifies this
      ensures Valid() && exists outs, first, next :: FinishCompaction(old(State()), State(), merged, outs, first, next)
    {
      hide Inv, Edited, Ordered, EditOk, FinishCompaction, Flat, Kept, Written, IsMerge, FilesOk, InstallEdit;
      ghost var s := State();
      var r := running.value;
      MergedBounded(s, merged);
      var outs, next := DoCompactionWork(r.base, r.level, merged, r.smallest, nextFile, stopBefore, full, sizeOf);
      InstallCanBeLogged(s, outs, next);
      var logNumber := CountersOf(manifest).logNumber;
      LogAndApply(InstallEdit(r, outs), logNumber, next);
      running := None;
      IsFinish(s, State(), merged, outs, s.nextFile, next);
      FinishKeeps(s, State(), merged, outs, s.nextFile, next);
    }
  }

  lemma FlushCanBeLogged(s: Db, level: nat, f: File)
    requires Inv(s) && s.imm.Some? && (s.imm.value != [] ==> f.number == s.nextFile && Lands(s.version, level, f))
    ensures Ordered(s.version) && EditOk(FlushEdit(s.imm.value, level, f))
    ensures forall l: nat, a, g :: l < NUM_LEVELS && (l, a) in FlushEdit(s.imm.value, level, f).added && g in s.version[l] ==> a.number != g.number
  {
    hide Inv, Describes, Ordered, EditOk, NewOrSinking, FilesOk, Once, Shape;
    VersionFacts(s);
    AllLevels(s.version);
    if s.imm.value != [] { LandsInRange(s.version, level, f); }
    FlushEditIsNew(s.version, s.imm.value, level, f, CountersOf(s.manifest).nextFile);
    DescribedIsFresh(s.manifest, s.version, FlushEdit(s.imm.value, level, f));
  }

  lemma DescribedIsFresh(m: Manifest, v: Levels, e: Edit)
    requires Describes(m, v) && NewOrSinking(e, v, CountersOf(m).nextFile)
    ensures forall l: nat, a, g :: l < NUM_LEVELS && (l, a) in e.added && g in v[l] ==> a.number != g.number
  {
    hide Rebuilds, NewOrSinking;
    NewOrSinkingIsFresh(m, v, e, CountersOf(m).nextFile);
  }

  lemma IsFlush(s: Db, s': Db, level: nat, f: File)
    requires s.imm.Some? && Edited(s.version, s'.version, FlushEdit(s.imm.value, level, f))
    requires s' == Logged(s, s'.version, FlushEdit(s.imm.value, level, f), s.logFile, s.nextFile + 1).(imm := None, flushed := s.sealed)
    requires s.imm.value != [] ==> FileOk(f) && f.number == s.nextFile && f.run == s.imm.value && Lands(s.version, level, f)
    ensures FlushImm(s, s', level, f)
  {
  }

  lemma MoveCanBeLogged(s: Db, level: nat, f: File)
    requires Inv(s) && GoodInputs(s.version, level, [f], [])
    ensures Ordered(s.version) && EditOk(MoveEdit(level, f))
    ensures forall l: nat, a, g :: l < NUM_LEVELS && (l, a) in MoveEdit(level, f).added && g in s.version[l] ==> a.number != g.number
  {
    hide Inv, Describes, Ordered, EditOk, NewOrSinking, FilesOk, Once, Shape, Connected;
    VersionFacts(s);
    AllLevels(s.version);
    assert f in [f];
    MoveEditSinks(s.version, level, f, CountersOf(s.manifest).nextFile);
    DescribedIsFresh(s.manifest, s.version, MoveEdit(level, f));
  }

  lemma IsMove(s: Db, s': Db, level: nat, f: File)
    requires s.running.None? && GoodInputs(s.version, level, [f], []) && Edited(s.version, s'.version, MoveEdit(level, f))
    requires s' == Logged(s, s'.version, MoveEdit(level, f), CountersOf(s.manifest).logNumber, s.nextFile).(floor := Max(s.floor, Oldest(s)))
    ensures MoveTable(s, s', level, f)
  {
  }

  lemma InstallCanBeLogged(s: Db, outs: seq<File>, next: nat)
    requires Inv(s) && s.running.Some? && Written(outs, s.nextFile, next)
    ensures var e := InstallEdit(s.running.value, outs);
            && Ordered(s.version) && EditOk(e)
            && forall l: nat, a, g :: l < NUM_LEVELS && (l, a) in e.added && g in s.version[l] ==> a.number != g.number
  {
    hide Describes, Ordered, EditOk, NewOrSinking, FilesOk, Once, Shape, JobFits, Written, NonePassed, NoneExposed, Faithful;
    VersionFacts(s);
    AllLevels(s.version);
    var r := s.running.value;
    JobParts(s.version, r.base, r.level, r.in0, r.in1);
    InstallEditIsNew(s.version, r, outs, s.nextFile, next, CountersOf(s.manifest).nextFile);
    DescribedIsFresh(s.manifest, s.version, InstallEdit(r, outs));
  }

  lemma IsFinish(s: Db, s': Db, merged: seq<Entry>, outs: seq<File>, first: nat, next: nat)
    requires s.running.Some? && IsMerge(merged, s.running.value.in0 + s.running.value.in1) && s.nextFile <= first
    requires var r := s.running.value;
             && Written(outs, first, next) && Flat(outs) == Kept(r.base, r.level, merged, r.smallest, |merged|)
             && Edited(s.version, s'.version, InstallEdit(r, outs))
             && s' == Logged(s, s'.version, InstallEdit(r, outs), CountersOf(s.manifest).logNumber, next).(running := None)
    ensures FinishCompaction(s, s', merged, outs, first, next)
  {
  }

  /** What DoCompactionWork asks of the merged input. */
  lemma MergedBounded(s: Db, merged: seq<Entry>)
    requires Inv(s) && s.running.Some? && IsMerge(merged, s.running.value.in0 + s.running.value.in1)
    ensures FilesOk(s.running.value.base) && Sorted(merged) && forall i :: 0 <= i < |merged| ==> merged[i].seqno <= MAX_SEQUENCE
  {
    hide Describes, Faithful, NonePassed, NoneExposed, JobFits, Connected;
    VersionFacts(s);
    var r := s.running.value;
    InputsOk(s.version, r.base, r.level, r.in0, r.in1);
    forall i | 0 <= i < |merged|
      ensures merged[i].seqno <= MAX_SEQUENCE
    {
      assert merged[i] in Entries(merged);
      var f :| f in r.in0 + r.in1 && merged[i] in f.run;
      FileIn(f, r.in0 + r.in1);
    }
  }

  lemma PendingIsNew(s: Db)
    requires Inv(s)
    ensures forall x, i :: x in s.mem && 0 <= i < |s.pending| ==> x.seqno != s.pending[i].seqno
    ensures forall i, j :: 0 <= i < j < |s.pending| ==> s.pending[i].seqno != s.pending[j].seqno
  {
    var all := s.history + s.pending;
    forall i | 0 <= i < |s.pending|
      ensures s.pending[i].seqno == |s.history| + i + 1
    {
      assert all[|s.history| + i] == s.pending[i];
    }
    forall x | x in s.mem
      ensures x.seqno <= |s.history|
    {
      assert x in Entries(s.mem);
      var j :| 0 <= j < |s.history[s.sealed..]| && s.history[s.sealed..][j] == x;
      assert all[s.sealed + j] == x;
    }
  }

  lemma ImmFile(s: Db, f: File)
    requires Inv(s) && s.imm.Some? && s.imm.value != [] && f == NewFile(f.number, f.size, s.imm.value)
    ensures FileOk(f)
  {
    forall i | 0 <= i < |f.run|
      ensures f.run[i].seqno <= MAX_SEQUENCE
    {
      assert f.run[i] in Entries(s.imm.value);
      var j :| 0 <= j < s.sealed - s.flushed && s.history[s.flushed..s.sealed][j] == f.run[i];
      assert (s.history + s.pending)[s.flushed + j] == f.run[i];
    }
  }

  lemma PickedLevelLands(v: Levels, level: nat, f: File)
    requires level < |v|
    requires 0 < level ==> forall l :: 0 <= l <= level ==> !OverlapInLevel(v, l, Some(f.smallest.user), Some(f.largest.user))
    ensures Lands(v, level, f)
  {
    if 0 < level {
      forall l, g | 0 <= l <= level && g in v[l]
        ensures Apart(f, g)
      {
        assert !OverlapInLevel(v, l, Some(f.smallest.user), Some(f.largest.user));
        assert !Overlaps(g, Some(f.smallest.user), Some(f.largest.user));
      }
    }
  }
}
