/**
 * The storage engine as a state machine (db/db_impl.cc): writes, memtable switches, flushes,
 * compactions in the background, snapshots, and crashes followed by recovery.
 */
module Engine {
  import opened Bytes
  import opened InternalKeys
  import opened Version
  import opened Inputs
  import opened Picking
  import opened Compaction
  import opened Installing
  import opened History
  import opened VersionReads
  import opened Builder
  import opened Manifests

  /** A compaction under way: the version it pinned, its inputs, its smallest snapshot. */
  datatype Running = Running(base: Levels, level: nat, in0: seq<File>, in1: seq<File>, smallest: nat)

  datatype Db = Db(
    // Memory, lost in a crash.
    mem: seq<Entry>,              // mem_
    imm: Option<seq<Entry>>,      // imm_
    version: Levels,              // versions_->current()
    lastSequence: nat,            // versions_->LastSequence()
    nextFile: nat,                // next_file_number_
    logFile: nat,                 // logfile_number_
    immLog: nat,                  // the log that backs imm_
    pending: seq<Entry>,          // logged by the leader, not yet in mem_
    snapshots: seq<nat>,          // snapshots_, oldest first
    running: Option<Running>,
    // Disk.
    manifest: Manifest,
    logs: map<nat, seq<seq<Entry>>>,
    // Bookkeeping for the statements: the writes acknowledged so far, how many of them are in
    // tables, how many are in tables or imm_, and the oldest snapshot reads are promised for.
    history: seq<Entry>,
    flushed: nat,
    sealed: nat,
    floor: nat)

  /** The log `number` holds exactly the writes `entries`. */
  ghost predicate LogHolds(s: Db, number: nat, entries: seq<Entry>)
  {
    number in s.logs && Concat(s.logs[number]) == entries
  }

  ghost predicate MemoryInv(s: Db)
  {
    && s.flushed <= s.sealed <= |s.history| == s.lastSequence
    && Numbered(s.history + s.pending)
    && |s.history| + |s.pending| < MAX_SEQUENCE
    && Sorted(s.mem) && Entries(s.mem) == Entries(s.history[s.sealed..])
    && (s.imm.None? ==> s.flushed == s.sealed)
    && (s.imm.Some? ==> Sorted(s.imm.value) && Entries(s.imm.value) == Entries(s.history[s.flushed..s.sealed]))
  }

  /** The manifest replays to the version, and everything not yet in tables is in the logs recovery would read. */
  ghost predicate DiskInv(s: Db)
    requires MemoryInv(s)
  {
    var c := CountersOf(s.manifest);
    && Describes(s.manifest, s.version)
    && s.flushed <= c.lastSequence <= s.lastSequence
    && c.nextFile <= s.nextFile
    && c.logNumber <= s.logFile < s.nextFile
    && (forall n :: n in s.logs ==> n <= s.logFile)
    && LogHolds(s, s.logFile, s.history[s.sealed..] + s.pending)
    && (s.imm.None? ==> forall n :: n in s.logs && c.logNumber <= n ==> n == s.logFile)
    && (s.imm.Some? ==>
          && c.logNumber <= s.immLog < s.logFile
          && LogHolds(s, s.immLog, s.history[s.flushed..s.sealed])
          && forall n :: n in s.logs && c.logNumber <= n ==> n == s.logFile || n == s.immLog)
  }

  ghost predicate SnapshotsInv(s: Db)
  {
    && s.floor <= s.lastSequence
    && (forall i :: 0 <= i < |s.snapshots| ==> s.floor <= s.snapshots[i] <= s.lastSequence)
    && (forall i, j :: 0 <= i < j < |s.snapshots| ==> s.snapshots[i] <= s.snapshots[j])
  }

  ghost predicate RunningInv(s: Db)
  {
    s.running.Some? ==>
      var r := s.running.value;
      && FilesOk(r.base) && JobFits(s.version, r.base, r.level, r.in0, r.in1)
      && NonePassed(s.version, r.level, r.in0, r.smallest)
      && NoneExposed(s.version, r.base, r.level, r.in0, r.in1, r.smallest)
      && Connected(r.in0 + r.in1)
      && r.smallest <= s.floor
  }

  ghost predicate Inv(s: Db)
  {
    && MemoryInv(s) && DiskInv(s) && SnapshotsInv(s) && RunningInv(s)
    && Faithful(s.version, s.history[..s.flushed], s.floor, s.nextFile)
  }

  // ------------------------------------------------------------------ steps

  /** A user operation of a write batch. */
  datatype Op = Put(key: Slice, value: Slice) | Delete(key: Slice)

  /** What MemTableInserter adds for one operation. */
  function EntryOf(op: Op, seqno: nat): (e: Entry)
    ensures e.seqno == seqno && e.key == op.key
  {
    match op
    case Put(k, v) => Entry(k, seqno, Value, v)
    case Delete(k) => Entry(k, seqno, Deletion, [])
  }

  /** MemTableInserter: consecutive sequence numbers from `first` on. */
  function Numbering(ops: seq<Op>, first: nat): (r: seq<Entry>)
    ensures |r| == |ops|
    ensures forall i :: 0 <= i < |r| ==> r[i].seqno == first + i
  {
    if ops == [] then [] else
      var n := |ops| - 1;
      Numbering(ops[..n], first) + [EntryOf(ops[n], first + n)]
  }

  /** Write, first half: the group is in the log. */
  ghost predicate AppendLog(s: Db, s': Db, ops: seq<Op>)
  {
    && s.pending == [] && ops != [] && s.lastSequence + |ops| < MAX_SEQUENCE && s.logFile in s.logs
    && var batch := Numbering(ops, s.lastSequence + 1);
       s' == s.(pending := batch, logs := s.logs[s.logFile := s.logs[s.logFile] + [batch]])
  }

  /** Write, second half: the group is in mem_ and LastSequence covers it. */
  ghost predicate ApplyBatch(s: Db, s': Db)
  {
    && s.pending != []
    && Sorted(s'.mem) && Entries(s'.mem) == Entries(s.mem) + Entries(s.pending)
    && s' == s.(mem := s'.mem, pending := [], lastSequence := s.lastSequence + |s.pending|, history := s.history + s.pending)
  }

  /** MakeRoomForWrite: a new log and a new memtable. */
  ghost predicate SwitchMemTable(s: Db, s': Db)
  {
    s.imm.None? && s.pending == [] && s' == Switched(s)
  }

  function Switched(s: Db): Db
  {
    s.(imm := Some(s.mem), mem := [], immLog := s.logFile, logFile := s.nextFile, nextFile := s.nextFile + 1,
       logs := s.logs[s.nextFile := []], sealed := |s.history|)
  }

  /** LogAndApply: a record goes to the manifest, and the version is installed. */
  function Logged(s: Db, version: Levels, edit: Edit, logNumber: nat, nextFile: nat): Db
  {
    s.(version := version, nextFile := nextFile,
       manifest := s.manifest + [Record(edit, Some(logNumber), Some(s.lastSequence), Some(nextFile))])
  }

  /** CompactMemTable's edit. An empty memtable leaves no table. */
  function FlushEdit(run: seq<Entry>, level: nat, f: File): Edit
  {
    Edit({}, if run == [] then [] else [(level, f)])
  }

  ghost predicate FlushImm(s: Db, s': Db, level: nat, f: File)
  {
    && s.imm.Some?
    && Edited(s.version, s'.version, FlushEdit(s.imm.value, level, f))
    && s' == Logged(s, s'.version, FlushEdit(s.imm.value, level, f), s.logFile, s.nextFile + 1).(imm := None, flushed := s.sealed)
    && (s.imm.value != [] ==> FileOk(f) && f.number == s.nextFile && f.run == s.imm.value && Lands(s.version, level, f))
  }

  /** The oldest snapshot a compaction has to keep readable. */
  function Oldest(s: Db): nat
  {
    if s.snapshots == [] then s.lastSequence else s.snapshots[0]
  }

  function Max(a: nat, b: nat): nat { if a < b then b else a }

  /** The start of DoCompactionWork: inputs are pinned, the smallest snapshot is fixed. */
  ghost predicate StartCompaction(s: Db, s': Db, level: nat, in0: seq<File>, in1: seq<File>)
  {
    && s.running.None? && GoodInputs(s.version, level, in0, in1)
    && s' == s.(running := Some(Running(s.version, level, in0, in1, Oldest(s))), floor := Max(s.floor, Oldest(s)))
  }

  /** AddInputDeletions and the outputs at the next level. */
  function InstallEdit(r: Running, outs: seq<File>): Edit
  {
    Edit((set f | f in r.in0 :: (r.level, f.number)) + (set f | f in r.in1 :: (r.level + 1, f.number)),
         seq(|outs|, i requires 0 <= i < |outs| => (r.level + 1, outs[i])))
  }

  /** InstallCompactionResults, for outputs DoCompactionWork may have written. */
  ghost predicate FinishCompaction(s: Db, s': Db, merged: seq<Entry>, outs: seq<File>, first: nat, next: nat)
  {
    && s.running.Some?
    && var r := s.running.value;
       && IsMerge(merged, r.in0 + r.in1)
       && Written(outs, first, next) && s.nextFile <= first
       && Flat(outs) == Kept(r.base, r.level, merged, r.smallest, |merged|)
       && Edited(s.version, s'.version, InstallEdit(r, outs))
       && s' == Logged(s, s'.version, InstallEdit(r, outs), CountersOf(s.manifest).logNumber, next).(running := None)
  }

  function MoveEdit(level: nat, f: File): Edit
  {
    Edit({(level, f.number)}, [(level + 1, f)])
  }

  /** The trivial move of one table. */
  ghost predicate MoveTable(s: Db, s': Db, level: nat, f: File)
  {
    && s.running.None? && GoodInputs(s.version, level, [f], [])
    && Edited(s.version, s'.version, MoveEdit(level, f))
    && s' == Logged(s, s'.version, MoveEdit(level, f), CountersOf(s.manifest).logNumber, s.nextFile).(floor := Max(s.floor, Oldest(s)))
  }

  /**
   * A compaction of these inputs hides no newer entry behind an older one and exposes nothing that
   * was deleted, for readers from `smallest` on. The code does not check this.
   */
  ghost predicate NothingResurfaces(v: Levels, level: nat, in0: seq<File>, in1: seq<File>, smallest: nat)
  {
    NonePassed(v, level, in0, smallest) && NoneExposed(v, v, level, in0, in1, smallest)
  }

  ghost predicate TakeSnapshot(s: Db, s': Db)
  {
    s' == s.(snapshots := s.snapshots + [s.lastSequence])
  }

  ghost predicate ReleaseSnapshot(s: Db, s': Db, i: nat)
  {
    i < |s.snapshots| && s' == s.(snapshots := s.snapshots[..i] + s.snapshots[i + 1..])
  }

  /** `numbers` lists the logs from `from` on, in increasing order. */
  ghost predicate LiveLogs(logs: map<nat, seq<seq<Entry>>>, from: nat, numbers: seq<nat>)
  {
    && (forall n :: n in numbers <==> n in logs && from <= n)
    && (forall i, j :: 0 <= i < j < |numbers| ==> numbers[i] < numbers[j])
  }

  /** What RecoverLogFile reads from those logs. */
  function ReplayOf(logs: map<nat, seq<seq<Entry>>>, numbers: seq<nat>): seq<Entry>
    requires forall n :: n in numbers ==> n in logs
  {
    if numbers == [] then [] else
      var n := |numbers| - 1;
      ReplayOf(logs, numbers[..n]) + Concat(logs[numbers[n]])
  }

  /** max_sequence after the replay, and then LastSequence. */
  function LastReplayed(entries: seq<Entry>, lastSequence: nat): nat
  {
    if entries != [] && lastSequence < entries[|entries| - 1].seqno then entries[|entries| - 1].seqno else lastSequence
  }

  /** The recovered tables, all at level 0. */
  function AtLevel0(files: seq<File>): Edit
  {
    Edit({}, seq(|files|, i requires 0 <= i < |files| => (0, files[i])))
  }

  /**
   * A crash and DB::Open after it. Only `manifest` and `logs` are read: the records of the manifest
   * are replayed into the version `recovered`, the logs not covered by it, in parts, into level-0
   * tables. An in-flight group survives whole.
   */
  ghost predicate CrashAndRecover(s: Db, s': Db, recovered: Levels, numbers: seq<nat>, parts: seq<seq<Entry>>, files: seq<File>)
  {
    var c := CountersOf(s.manifest);
    && Complete(s.manifest)
    && Ordered(recovered) && Tables(recovered) == Saved(NoTables(), Accumulate(Edits(s.manifest)))
    && LiveLogs(s.logs, c.logNumber, numbers)
    && Concat(parts) == ReplayOf(s.logs, numbers)
    && TablesOf(files, parts, c.nextFile)
    && Edited(recovered, s'.version, AtLevel0(files))
    && s'.lastSequence == LastReplayed(ReplayOf(s.logs, numbers), c.lastSequence)
    && s'.mem == [] && s'.imm == None && s'.pending == [] && s'.snapshots == [] && s'.running == None
    && c.nextFile <= s'.logFile < s'.nextFile
    && (forall n :: n in s.logs ==> n < s'.logFile)
    && (forall i :: 0 <= i < |files| ==> files[i].number < s'.nextFile)
    && s'.logs == s.logs[s'.logFile := []]
    && s'.manifest == NewManifest(recovered, AtLevel0(files), s'.logFile, s'.lastSequence, s'.nextFile)
    && s'.history == s.history + s.pending
    && s'.flushed == s'.sealed == |s'.history| && s'.floor == s.floor
  }

  /** The steps that do not choose the inputs of a compaction. */
  ghost predicate OtherStep(s: Db, s': Db)
  {
    || (exists ops :: AppendLog(s, s', ops))
    || ApplyBatch(s, s')
    || SwitchMemTable(s, s')
    || (exists level, f :: FlushImm(s, s', level, f))
    || (exists merged, outs, first, next :: FinishCompaction(s, s', merged, outs, first, next))
    || TakeSnapshot(s, s')
    || (exists i :: ReleaseSnapshot(s, s', i))
    || (exists recovered, numbers, parts, files :: CrashAndRecover(s, s', recovered, numbers, parts, files))
  }

  /** Any step of the code. */
  ghost predicate Step(s: Db, s': Db)
  {
    || OtherStep(s, s')
    || (exists level, in0, in1 :: StartCompaction(s, s', level, in0, in1))
    || (exists level, f :: MoveTable(s, s', level, f))
  }

  /** A step of the code, in which compactions choose inputs that let nothing resurface. */
  ghost predicate Next(s: Db, s': Db)
  {
    || OtherStep(s, s')
    || (exists level, in0, in1 :: StartCompaction(s, s', level, in0, in1) && NothingResurfaces(s.version, level, in0, in1, Oldest(s)))
    || (exists level, f :: MoveTable(s, s', level, f) && NonePassed(s.version, level, [f], Oldest(s)))
  }

  /** A database just created. */
  ghost predicate Init(s: Db)
  {
    && s.version == NoLevels()
    && s.mem == [] && s.imm == None && s.pending == [] && s.snapshots == [] && s.running == None
    && s.lastSequence == 0 && s.history == [] && s.flushed == 0 && s.sealed == 0 && s.floor == 0
    && s.logFile < s.nextFile && s.logs == map[s.logFile := []]
    && s.manifest == NewManifest(s.version, Edit({}, []), s.logFile, 0, s.nextFile)
  }

  // ------------------------------------------------------------------ what edits lead to

  lemma EditAdds(v: Levels, v': Levels, level: nat, f: File)
    requires level < NUM_LEVELS && Edited(v, v', Edit({}, [(level, f)]))
    ensures Added(v, v', level, f)
  {
    var e := Edit({}, [(level, f)]);
    forall l | 0 <= l < NUM_LEVELS && l != level
      ensures v'[l] == v[l]
    {
      UntouchedLevel(v, v', e, l);
    }
    forall g
      ensures g in v'[level] <==> g in v[level] || g == f
    {
      assert (level, g) in e.added <==> g == f;
    }
  }

  lemma EditMoves(v: Levels, v': Levels, level: nat, f: File)
    requires UniqueNumbers(v) && level + 1 < NUM_LEVELS && In(v, level, f) && Edited(v, v', MoveEdit(level, f))
    ensures Replaced(v, v', level, [f], [], [f])
  {
    var e := MoveEdit(level, f);
    forall l | 0 <= l < NUM_LEVELS && l != level && l != level + 1
      ensures v'[l] == v[l]
    {
      UntouchedLevel(v, v', e, l);
    }
    forall g
      ensures g in v'[level] <==> g in v[level] && g !in [f]
    {
      assert (level, g) !in e.added by { assert (level, g).0 == level; }
      if g in v[level] {
        assert In(v, level, g);
        assert (level, g.number) in e.deleted <==> g == f;
      }
    }
    forall g
      ensures g in v'[level + 1] <==> (g in v[level + 1] && g !in []) || g in [f]
    {
      assert (level + 1, g) in e.added <==> g == f;
      assert (level + 1, g.number) !in e.deleted;
    }
  }

  lemma DeletedIffInput(v: Levels, r: Running, outs: seq<File>, l: nat, g: File)
    requires UniqueNumbers(v) && JobFits(v, r.base, r.level, r.in0, r.in1) && In(v, l, g)
    requires l == r.level || l == r.level + 1
    ensures (l, g.number) in InstallEdit(r, outs).deleted <==> (if l == r.level then g in r.in0 else g in r.in1)
  {
    var ins := if l == r.level then r.in0 else r.in1;
    forall f | f in ins && f.number == g.number
      ensures f == g
    {
      assert In(v, l, f);
    }
    if g in ins { assert (l, g.number) in InstallEdit(r, outs).deleted; }
  }

  lemma InstallEditAdds(r: Running, outs: seq<File>, l: nat, g: File)
    ensures (l, g) in InstallEdit(r, outs).added <==> l == r.level + 1 && g in outs
  {
    var added := InstallEdit(r, outs).added;
    if l == r.level + 1 && g in outs {
      var i :| 0 <= i < |outs| && outs[i] == g;
      assert added[i] == (l, g);
    }
  }

  lemma EditReplaces(v: Levels, v': Levels, r: Running, outs: seq<File>)
    requires UniqueNumbers(v) && JobFits(v, r.base, r.level, r.in0, r.in1) && Edited(v, v', InstallEdit(r, outs))
    ensures Replaced(v, v', r.level, r.in0, r.in1, outs)
  {
    hide UniqueNumbers, JobFits;
    JobParts(v, r.base, r.level, r.in0, r.in1);
    var e, level := InstallEdit(r, outs), r.level;
    forall l | 0 <= l < NUM_LEVELS && l != level && l != level + 1
      ensures v'[l] == v[l]
    {
      UntouchedLevel(v, v', e, l);
    }
    forall g
      ensures g in v'[level] <==> g in v[level] && g !in r.in0
    {
      InstallEditAdds(r, outs, level, g);
      if g in v[level] { DeletedIffInput(v, r, outs, level, g); }
    }
    forall g
      ensures g in v'[level + 1] <==> (g in v[level + 1] && g !in r.in1) || g in outs
    {
      InstallEditAdds(r, outs, level + 1, g);
      if g in v[level + 1] { DeletedIffInput(v, r, outs, level + 1, g); }
    }
  }

  lemma AtLevel0Has(files: seq<File>, l: nat, f: File)
    ensures (l, f) in AtLevel0(files).added <==> l == 0 && f in files
  {
    var added := AtLevel0(files).added;
    if (l, f) in added {
      var i :| 0 <= i < |added| && added[i] == (l, f);
      assert files[i] in files;
    }
    if l == 0 && f in files {
      var i :| 0 <= i < |files| && files[i] == f;
      assert added[i] in added;
    }
  }

  lemma RecoveredTables(v: Levels, v': Levels, files: seq<File>)
    requires Edited(v, v', AtLevel0(files))
    ensures v != [] && SameTables(WithLevel0(v, files), v')
  {
    forall l | 1 <= l < NUM_LEVELS
      ensures v'[l] == v[l]
    {
      UntouchedLevel(v, v', AtLevel0(files), l);
    }
    forall f
      ensures f in v'[0] <==> f in v[0] + files
    {
      AtLevel0Has(files, 0, f);
    }
  }

  /** Tables with fresh, different numbers make an edit that can be recorded. */
  lemma RecoveredEdit(v: Levels, files: seq<File>, parts: seq<seq<Entry>>, bound: nat)
    requires TablesOf(files, parts, bound) && |v| == NUM_LEVELS
    ensures EditOk(AtLevel0(files)) && NewOrSinking(AtLevel0(files), v, bound)
  {
    var added := AtLevel0(files).added;
    forall a, b | a in added && b in added && a.1.number == b.1.number
      ensures a == b
    {
      AtLevel0Has(files, a.0, a.1);
      AtLevel0Has(files, b.0, b.1);
    }
    forall a | a in added
      ensures a.0 == 0 && bound <= a.1.number
    {
      AtLevel0Has(files, a.0, a.1);
    }
  }

  /** So do the outputs of a compaction. */
  lemma InstallEditIsNew(v: Levels, r: Running, outs: seq<File>, first: nat, next: nat, bound: nat)
    requires Written(outs, first, next) && bound <= first && r.level + 1 < |v| == NUM_LEVELS
    ensures EditOk(InstallEdit(r, outs)) && NewOrSinking(InstallEdit(r, outs), v, bound)
    ensures forall l: nat, f :: (l, f) in InstallEdit(r, outs).added ==> f.number < next
  {
    hide Written, InstallEdit;
    var added := InstallEdit(r, outs).added;
    InstallDeletes(r, outs);
    forall a | a in added
      ensures a.0 == r.level + 1 && a.1 in outs && bound <= a.1.number < next
    {
      InstallEditAdds(r, outs, a.0, a.1);
      WrittenNumbers(outs, first, next);
    }
    forall a, b | a in added && b in added && a.1.number == b.1.number
      ensures a == b
    {
      WrittenOnce(outs, first, next, a.1, b.1);
    }
  }

  lemma InstallDeletes(r: Running, outs: seq<File>)
    ensures forall d :: d in InstallEdit(r, outs).deleted ==> d.0 == r.level || d.0 == r.level + 1
  {
  }

  lemma WrittenOnce(outs: seq<File>, first: nat, next: nat, f: File, g: File)
    requires Written(outs, first, next) && f in outs && g in outs && f.number == g.number
    ensures f == g
  {
    var i :| 0 <= i < |outs| && outs[i] == f;
    var j :| 0 <= j < |outs| && outs[j] == g;
  }

  lemma FlushEditIsNew(v: Levels, run: seq<Entry>, level: nat, f: File, bound: nat)
    requires |v| == NUM_LEVELS && (run != [] ==> level < NUM_LEVELS && bound <= f.number)
    ensures EditOk(FlushEdit(run, level, f)) && NewOrSinking(FlushEdit(run, level, f), v, bound)
  {
  }

  lemma MoveEditSinks(v: Levels, level: nat, f: File, bound: nat)
    requires |v| == NUM_LEVELS && level + 1 < NUM_LEVELS && f in v[level]
    ensures EditOk(MoveEdit(level, f)) && NewOrSinking(MoveEdit(level, f), v, bound)
  {
  }

  // ------------------------------------------------------------------ the invariant

  /** What the invariant says of the version and its manifest. */
  lemma VersionFacts(s: Db)
    requires Inv(s)
    ensures Shape(s.version, s.floor, s.nextFile) && FilesOk(s.version) && Once(s.version) && UniqueNumbers(s.version)
    ensures Describes(s.manifest, s.version) && Ordered(s.version) && CountersOf(s.manifest).nextFile <= s.nextFile
    ensures forall l: nat, f :: In(s.version, l, f) ==> f.number < CountersOf(s.manifest).nextFile
    ensures After(Entries(s.history[s.flushed..]), Stored(s.version))
  {
    hide Describes, Recency, FilesOk, Once, ReadsAgree, UniqueNumbers, Stored, RunningInv, SnapshotsInv;
    NumbersRecorded(s.manifest, s.version);
    forall e, x | e in Entries(s.history[s.flushed..]) && x in Stored(s.version)
      ensures e.seqno > x.seqno
    {
      assert x in Entries(s.history[..s.flushed]);
      var i :| 0 <= i < |s.history| - s.flushed && s.history[s.flushed..][i] == e;
      var j :| 0 <= j < s.flushed && s.history[..s.flushed][j] == x;
      assert (s.history + s.pending)[s.flushed + i] == e && (s.history + s.pending)[j] == x;
    }
  }

  lemma EmptyVersion(next: nat)
    ensures Faithful(NoLevels(), [], 0, next) && UniqueNumbers(NoLevels()) && Edited(NoLevels(), NoLevels(), Edit({}, []))
    ensures Ordered(NoLevels()) && forall l: nat, f :: !In(NoLevels(), l, f)
    ensures |NoLevels()| == NUM_LEVELS
  {
    hide ILess, Before;
    NoLevelsHold();
    assert Stored(NoLevels()) == {};
  }

  lemma InitInv(s: Db)
    requires Init(s)
    ensures Inv(s)
  {
    hide Describes, Faithful, RunningInv, NewManifest, NewOrSinking, EditOk, Edited, Ordered, UniqueNumbers, NoLevels;
    EmptyVersion(s.nextFile);
    NothingRunning(s);
    assert Entries([]) == {} && s.history[..0] == [];
    assert s.history + s.pending == [];
    FlushEditIsNew(s.version, [], 0, File(0, 0, IKey([], 0), IKey([], 0), []), 0);
    NewManifestDescribes(s.version, s.version, Edit({}, []), s.logFile, 0, s.nextFile, 0);
  }

  lemma AppendLogKeeps(s: Db, s': Db, ops: seq<Op>)
    requires Inv(s) && AppendLog(s, s', ops)
    ensures Inv(s')
  {
    hide Describes, Faithful, RunningInv;
    var batch := Numbering(ops, s.lastSequence + 1);
    var records := s.logs[s.logFile] + [batch];
    assert records[..|records| - 1] == s.logs[s.logFile];
    assert s.history[s.sealed..] + s.pending == s.history[s.sealed..];
    forall i | 0 <= i < |s'.history + s'.pending|
      ensures (s'.history + s'.pending)[i].seqno == i + 1
    {
      if i < |s.history| { assert (s.history + s.pending)[i] == s.history[i]; }
    }
    RunningSame(s, s');
  }

  lemma RunningSame(s: Db, s': Db)
    requires RunningInv(s) && s'.version == s.version && s'.running == s.running && s.floor <= s'.floor
    ensures RunningInv(s')
  {
  }

  lemma ApplyBatchKeeps(s: Db, s': Db)
    requires Inv(s) && ApplyBatch(s, s')
    ensures Inv(s')
  {
    hide Describes, Faithful, RunningInv;
    assert s'.history + s'.pending == s.history + s.pending;
    assert s'.history[s.sealed..] == s.history[s.sealed..] + s.pending;
    assert s'.history[s.sealed..] + s'.pending == s.history[s.sealed..] + s.pending;
    assert Entries(s'.history[s.sealed..]) == Entries(s.history[s.sealed..]) + Entries(s.pending);
    assert s'.history[..s.flushed] == s.history[..s.flushed];
    assert s.imm.Some? ==> s'.history[s.flushed..s.sealed] == s.history[s.flushed..s.sealed];
    RunningSame(s, s');
  }

  lemma SwitchKeeps(s: Db, s': Db)
    requires Inv(s) && SwitchMemTable(s, s')
    ensures Inv(s')
  {
    hide Describes, RunningInv, Faithful;
    assert s'.history[s'.sealed..] == [];
    assert s.history[s.sealed..] + s.pending == s.history[s.sealed..];
    assert s'.history[s'.flushed..s'.sealed] == s.history[s.sealed..];
    assert Entries([]) == {};
    RunningSame(s, s');
    FaithfulLater(s.version, s.history[..s.flushed], s.floor, s.nextFile, s.floor, s'.nextFile);
  }

  lemma RecencyLater(v: Levels, floor: nat, floor': nat)
    requires Recency(v, floor) && floor <= floor'
    ensures Recency(v, floor')
  {
    hide Stored;
    forall l: nat, f, m: nat, g | In(v, l, f) && In(v, m, g) && Above(l, f, m, g)
      ensures Newer(f, g, Stored(v), floor')
    {
      assert Newer(f, g, Stored(v), floor);
    }
  }

  lemma FaithfulLater(v: Levels, h: seq<Entry>, floor: nat, next: nat, floor': nat, next': nat)
    requires Faithful(v, h, floor, next) && floor <= floor' && next <= next'
    ensures Faithful(v, h, floor', next')
  {
    hide Recency, FilesOk, Once, UniqueNumbers, Sees, Outcome;
    RecencyLater(v, floor, floor');
  }

  /** What a flush takes from the history. */
  lemma FlushedPart(s: Db)
    requires Inv(s)
    ensures var h := s.history[..s.sealed];
            Numbered(h) && h[..s.flushed] == s.history[..s.flushed] && h[s.flushed..] == s.history[s.flushed..s.sealed]
  {
    var h := s.history[..s.sealed];
    forall i | 0 <= i < |h| ensures h[i].seqno == i + 1 { assert (s.history + s.pending)[i] == h[i]; }
  }

  lemma FlushKeeps(s: Db, s': Db, level: nat, f: File)
    requires Inv(s) && FlushImm(s, s', level, f)
    ensures Inv(s')
  {
    hide Describes, Faithful, RunningInv, Lands, Edited, FileOk, CountersOf, Numbered;
    FlushedPart(s);
    FlushDescribes(s, s', level, f);
    FlushKeepsVersion(s, s', level, f);
    assert forall n :: n in s.logs ==> n <= s.logFile;
  }

  /** The manifest after a flush. */
  lemma FlushDescribes(s: Db, s': Db, level: nat, f: File)
    requires Inv(s) && FlushImm(s, s', level, f)
    ensures Describes(s'.manifest, s'.version) && CountersOf(s'.manifest) == Counters(s.logFile, s.lastSequence, s.nextFile + 1)
  {
    hide MemoryInv, Describes, Faithful, RunningInv, Lands, Edited, EditOk, NewOrSinking, UniqueNumbers, FilesOk, FileOk, Once, CountersOf;
    VersionFacts(s);
    FlushEditIsNew(s.version, s.imm.value, level, f, CountersOf(s.manifest).nextFile) by {
      if s.imm.value != [] { LandsInRange(s.version, level, f); }
      AllLevels(s.version);
    }
    MoreDescribes(s.manifest, s.version, s'.version, FlushEdit(s.imm.value, level, f), s.logFile, s.lastSequence, s.nextFile + 1);
  }

  lemma LandsInRange(v: Levels, level: nat, f: File)
    requires Lands(v, level, f)
    ensures level < |v|
  {
  }

  /** The version after a flush, and the inputs of a compaction under way. */
  lemma FlushKeepsVersion(s: Db, s': Db, level: nat, f: File)
    requires Inv(s) && FlushImm(s, s', level, f)
    ensures Faithful(s'.version, s.history[..s.sealed], s.floor, s'.nextFile) && RunningInv(s')
  {
    hide Lands, Edited, UniqueNumbers, FilesOk, FileOk, Once, After, Shape, Numbered, DiskInv, SnapshotsInv, JobFits, NonePassed, NoneExposed, Connected;
    VersionFacts(s);
    FlushedPart(s);
    var h := s.history[..s.sealed];
    if s.imm.value == [] {
      EditNothing(s.version, s'.version);
      assert Entries(s.imm.value) == {};
      FirstEntry(h[s.flushed..]);
      FaithfulLater(s.version, h, s.floor, s.nextFile, s.floor, s'.nextFile);
    } else {
      LandsInRange(s.version, level, f);
      AllLevels(s.version);
      EditAdds(s.version, s'.version, level, f);
      FlushKeepsFaithful(s.version, s'.version, level, f, h, s.flushed, s.floor, s.nextFile);
      if s.running.Some? {
        var r := s.running.value;
        NewerThanTables(s, f);
        FlushKeepsFit(s.version, s'.version, r.base, r.level, r.in0, r.in1, level, f, r.smallest);
      }
    }
  }

  lemma NewerThanTables(s: Db, f: File)
    requires Inv(s) && s.imm.Some? && f.run == s.imm.value
    ensures After(Entries(f.run), Stored(s.version))
  {
    hide DiskInv, Faithful, RunningInv;
    VersionFacts(s);
    assert forall e :: e in s.history[s.flushed..s.sealed] ==> e in s.history[s.flushed..];
  }

  lemma StartKeeps(s: Db, s': Db, level: nat, in0: seq<File>, in1: seq<File>)
    requires Inv(s) && StartCompaction(s, s', level, in0, in1)
    requires NothingResurfaces(s.version, level, in0, in1, Oldest(s))
    ensures Inv(s')
  {
    hide Describes, Faithful, Shape, NonePassed, NoneExposed, JobFits, FilesOk;
    VersionFacts(s);
    PickedFits(s.version, s.floor, s.nextFile, level, in0, in1);
    FaithfulLater(s.version, s.history[..s.flushed], s.floor, s.nextFile, s'.floor, s.nextFile);
  }

  lemma FinishKeeps(s: Db, s': Db, merged: seq<Entry>, outs: seq<File>, first: nat, next: nat)
    requires Inv(s) && FinishCompaction(s, s', merged, outs, first, next)
    ensures Inv(s')
  {
    hide Describes, Faithful, Shape, NonePassed, NoneExposed, JobFits, FilesOk, Edited, EditOk, NewOrSinking, Flat, Kept, Written, IsMerge, UniqueNumbers, Once;
    VersionFacts(s);
    var r := s.running.value;
    JobParts(s.version, r.base, r.level, r.in0, r.in1);
    AllLevels(s.version);
    WrittenNumbers(outs, first, next);
    InstallEditIsNew(s.version, r, outs, first, next, CountersOf(s.manifest).nextFile);
    MoreDescribes(s.manifest, s.version, s'.version, InstallEdit(r, outs), CountersOf(s.manifest).logNumber, s.lastSequence, next);
    FinishKeepsVersion(s, s', merged, outs, first, next);
  }

  lemma WrittenNumbers(outs: seq<File>, first: nat, next: nat)
    requires Written(outs, first, next)
    ensures first <= next && forall f :: f in outs ==> first <= f.number < next
  {
    forall f | f in outs
      ensures first <= f.number < next
    {
      var i :| 0 <= i < |outs| && outs[i] == f;
    }
  }

  lemma FinishKeepsVersion(s: Db, s': Db, merged: seq<Entry>, outs: seq<File>, first: nat, next: nat)
    requires Inv(s) && FinishCompaction(s, s', merged, outs, first, next)
    ensures Faithful(s'.version, s.history[..s.flushed], s.floor, next)
  {
    hide DiskInv, Shape, NonePassed, NoneExposed, JobFits, FilesOk, Edited, Flat, Kept, Written, UniqueNumbers, Once, Faithful;
    VersionFacts(s);
    var r := s.running.value;
    var h := s.history[..s.flushed];
    forall i | 0 <= i < |h| ensures h[i].seqno == i + 1 { assert (s.history + s.pending)[i] == h[i]; }
    JobParts(s.version, r.base, r.level, r.in0, r.in1);
    EditReplaces(s.version, s'.version, r, outs);
    FlatUnion(outs);
    KeptAre(r.base, r.level, merged, r.smallest, |merged|);
    forall x | x in Union(outs) ensures x in Entries(merged) {}
    OutputsAre(outs, first, next, merged, r.in0, r.in1);
    WrittenNumbers(outs, first, next);
    assert FreeNumbers(s.version, r.in0, r.in1, outs, next);
    CompactionKeepsFaithful(s.version, s'.version, r.base, r.level, r.in0, r.in1, merged, r.smallest, outs, h,
                            s.floor, s.nextFile, next);
  }

  lemma OutputsAre(outs: seq<File>, first: nat, next: nat, merged: seq<Entry>, in0: seq<File>, in1: seq<File>)
    requires Written(outs, first, next)
    requires IsMerge(merged, in0 + in1) && Union(outs) <= Entries(merged)
    ensures Outputs(outs, in0, in1)
  {
    forall f, g | f in outs && g in outs && f != g
      ensures Beside(f, g) && f.number != g.number
    {
      SortedIsBeside(outs, f, g);
      if f.number == g.number { WrittenOnce(outs, first, next, f, g); }
    }
    forall f, e | f in outs && e in f.run
      ensures exists g :: g in in0 + in1 && e in g.run
    {
      assert e in Union(outs);
      assert e in Union(in0 + in1);
    }
  }

  /** The manifest after a move. */
  lemma MoveDescribes(s: Db, s': Db, level: nat, f: File)
    requires Inv(s) && MoveTable(s, s', level, f)
    ensures Describes(s'.manifest, s'.version)
    ensures CountersOf(s'.manifest) == Counters(CountersOf(s.manifest).logNumber, s.lastSequence, s.nextFile)
  {
    hide MemoryInv, Describes, Faithful, RunningInv, FilesOk, Edited, EditOk, NewOrSinking, UniqueNumbers, Once, GoodInputs, CountersOf;
    VersionFacts(s);
    AllLevels(s.version);
    MovedIsInput(s.version, level, f);
    MoveEditSinks(s.version, level, f, CountersOf(s.manifest).nextFile);
    MoreDescribes(s.manifest, s.version, s'.version, MoveEdit(level, f), CountersOf(s.manifest).logNumber, s.lastSequence, s.nextFile);
  }

  lemma MoveKeeps(s: Db, s': Db, level: nat, f: File)
    requires Inv(s) && MoveTable(s, s', level, f) && NonePassed(s.version, level, [f], Oldest(s))
    ensures Inv(s')
  {
    hide Describes, Faithful, Shape, NonePassed, FilesOk, Edited, UniqueNumbers, Once, Connected, TouchesHull, GoodInputs;
    VersionFacts(s);
    AllLevels(s.version);
    MovedIsInput(s.version, level, f);
    MoveDescribes(s, s', level, f);
    EditMoves(s.version, s'.version, level, f);
    FaithfulLater(s.version, s.history[..s.flushed], s.floor, s.nextFile, s'.floor, s.nextFile);
    MoveKeepsFaithful(s.version, s'.version, level, f, s.history[..s.flushed], s'.floor, Oldest(s), s.nextFile);
  }

  lemma ReleaseKeeps(s: Db, s': Db, i: nat)
    requires Inv(s) && ReleaseSnapshot(s, s', i)
    ensures Inv(s')
  {
    hide Describes, Faithful, RunningInv;
    RunningSame(s, s');
  }

  /** The live logs are exactly the ones behind imm_ and mem_, in that order. */
  lemma ReplayIsTail(s: Db, numbers: seq<nat>)
    requires Inv(s) && LiveLogs(s.logs, CountersOf(s.manifest).logNumber, numbers)
    ensures ReplayOf(s.logs, numbers) == (s.history + s.pending)[s.flushed..]
  {
    hide Inv, Concat, ReplayOf;
    LogsAre(s, numbers);
    if s.imm.None? {
      OnlyLog(s.logs, numbers, s.logFile);
    } else {
      OnlyTwoLogs(s.logs, numbers, s.immLog, s.logFile);
      assert s.history[s.flushed..s.sealed] + (s.history[s.sealed..] + s.pending) == (s.history + s.pending)[s.flushed..];
    }
  }

  lemma LogsAre(s: Db, numbers: seq<nat>)
    requires Inv(s) && LiveLogs(s.logs, CountersOf(s.manifest).logNumber, numbers)
    ensures s.flushed <= s.sealed <= |s.history| && LogHolds(s, s.logFile, s.history[s.sealed..] + s.pending)
    ensures s.imm.None? ==> s.flushed == s.sealed && forall n :: n in numbers <==> n == s.logFile
    ensures s.imm.Some? ==> LogHolds(s, s.immLog, s.history[s.flushed..s.sealed]) && s.immLog < s.logFile
    ensures s.imm.Some? ==> forall n :: n in numbers <==> n == s.immLog || n == s.logFile
  {
    hide Describes, Faithful, RunningInv, SnapshotsInv, Sorted, Entries, Numbered, Concat;
  }

  lemma OnlyLog(logs: map<nat, seq<seq<Entry>>>, numbers: seq<nat>, log: nat)
    requires log in logs && (forall n :: n in numbers <==> n == log)
    requires forall i, j :: 0 <= i < j < |numbers| ==> numbers[i] < numbers[j]
    ensures ReplayOf(logs, numbers) == Concat(logs[log])
  {
    assert log in numbers;
    assert numbers[0] in numbers && numbers[|numbers| - 1] in numbers;
    assert numbers == [log];
    assert numbers[..0] == [];
  }

  lemma OnlyTwoLogs(logs: map<nat, seq<seq<Entry>>>, numbers: seq<nat>, first: nat, second: nat)
    requires first in logs && second in logs && first < second && (forall n :: n in numbers <==> n == first || n == second)
    requires forall i, j :: 0 <= i < j < |numbers| ==> numbers[i] < numbers[j]
    ensures ReplayOf(logs, numbers) == Concat(logs[first]) + Concat(logs[second])
  {
    assert first in numbers && second in numbers;
    var last := |numbers| - 1;
    assert numbers[0] in numbers && numbers[last / 2] in numbers && numbers[last] in numbers;
    assert numbers == [first, second];
    assert numbers[..1] == [first];
    OnlyLog(logs, [first], first);
  }

  /** The version and the manifest after a recovery. */
  lemma RecoverKeepsVersion(s: Db, s': Db, recovered: Levels, numbers: seq<nat>, parts: seq<seq<Entry>>, files: seq<File>)
    requires Inv(s) && CrashAndRecover(s, s', recovered, numbers, parts, files)
    ensures recovered == s.version
    ensures Faithful(s'.version, s'.history, s'.floor, s'.nextFile)
    ensures Describes(s'.manifest, s'.version)
    ensures CountersOf(s'.manifest) == Counters(s'.logFile, s'.lastSequence, s'.nextFile)
  {
    hide Describes, Faithful, Shape, RunningInv, SnapshotsInv, FilesOk, Edited, EditOk, NewOrSinking, UniqueNumbers, Once, TablesOf, ReplayOf, LiveLogs, Ordered, SameTables;
    var h, c := s'.history, CountersOf(s.manifest);
    VersionFacts(s);
    AllLevels(s.version);
    RebuiltIsCurrent(s.manifest, s.version, recovered);
    ReplayIsTail(s, numbers);
    assert h[..s.flushed] == s.history[..s.flushed];
    ManifestNumbers(s);
    ReplayKeepsFaithful(s.version, h, s.flushed, s.floor, c.nextFile, files, parts);
    RecoveredTables(s.version, s'.version, files);
    SameTablesFaithful(WithLevel0(s.version, files), s'.version, h, s.floor, NextAfter(files, c.nextFile));
    FaithfulLater(s'.version, h, s.floor, NextAfter(files, c.nextFile), s.floor, s'.nextFile);
    RecoveredEdit(s.version, files, parts, c.nextFile);
    forall l: nat, f | (l, f) in AtLevel0(files).added
      ensures f.number < s'.nextFile
    {
      AtLevel0Has(files, l, f);
    }
    NewManifestDescribes(s.version, s'.version, AtLevel0(files), s'.logFile, s'.lastSequence, s'.nextFile, c.nextFile);
  }

  lemma RecoverKeeps(s: Db, s': Db, recovered: Levels, numbers: seq<nat>, parts: seq<seq<Entry>>, files: seq<File>)
    requires Inv(s) && CrashAndRecover(s, s', recovered, numbers, parts, files)
    ensures Inv(s') && recovered == s.version
  {
    hide Describes, Faithful, RunningInv, Edited, TablesOf, Ordered, ReplayOf, LiveLogs, Accumulate, Saved, NewManifest;
    RecoverKeepsVersion(s, s', recovered, numbers, parts, files);
    RecoverSequence(s, s', recovered, numbers, parts, files);
    var h := s'.history;
    assert h[..|h|] == h && h + [] == h;
    assert h[s'.sealed..] == [];
    assert Entries([]) == {};
    NothingRunning(s');
  }

  lemma RecoverSequence(s: Db, s': Db, recovered: Levels, numbers: seq<nat>, parts: seq<seq<Entry>>, files: seq<File>)
    requires Inv(s) && CrashAndRecover(s, s', recovered, numbers, parts, files)
    ensures s'.lastSequence == |s'.history|
  {
    hide Describes, Faithful, RunningInv, Edited, TablesOf, Ordered, Accumulate, Saved, NewManifest, ReplayOf;
    var h := s'.history;
    ReplayIsTail(s, numbers);
    var replay := h[s.flushed..];
    if replay != [] { assert replay[|replay| - 1] == h[|h| - 1]; }
  }

  lemma NothingRunning(s: Db)
    requires s.running.None?
    ensures RunningInv(s)
  {
  }

  lemma ManifestNumbers(s: Db)
    requires Inv(s)
    ensures Faithful(s.version, s.history[..s.flushed], s.floor, CountersOf(s.manifest).nextFile)
  {
    hide Describes, RunningInv, FilesOk, Recency, Once, ReadsAgree;
    NumbersRecorded(s.manifest, s.version);
  }

  lemma OtherStepKeeps(s: Db, s': Db)
    requires Inv(s) && OtherStep(s, s')
    ensures Inv(s')
  {
    hide Inv, AppendLog, ApplyBatch, SwitchMemTable, FlushImm, FinishCompaction, ReleaseSnapshot, CrashAndRecover;
    if ops :| AppendLog(s, s', ops) { AppendLogKeeps(s, s', ops); }
    else if ApplyBatch(s, s') { ApplyBatchKeeps(s, s'); }
    else if SwitchMemTable(s, s') { SwitchKeeps(s, s'); }
    else if level, f :| FlushImm(s, s', level, f) { FlushKeeps(s, s', level, f); }
    else if merged, outs, first, next :| FinishCompaction(s, s', merged, outs, first, next) { FinishKeeps(s, s', merged, outs, first, next); }
    else if TakeSnapshot(s, s') { TakeKeeps(s, s'); }
    else if i :| ReleaseSnapshot(s, s', i) { ReleaseKeeps(s, s', i); }
    else if recovered, numbers, parts, files :| CrashAndRecover(s, s', recovered, numbers, parts, files) {
      RecoverKeeps(s, s', recovered, numbers, parts, files);
    }
  }

  lemma TakeKeeps(s: Db, s': Db)
    requires Inv(s) && TakeSnapshot(s, s')
    ensures Inv(s')
  {
    hide Describes, Faithful, RunningInv;
    RunningSame(s, s');
  }

  /** Every step keeps the invariant. */
  lemma NextKeeps(s: Db, s': Db)
    requires Inv(s) && Next(s, s')
    ensures Inv(s')
  {
    hide Inv, OtherStep, StartCompaction, MoveTable, NothingResurfaces, NonePassed;
    if OtherStep(s, s') {
      OtherStepKeeps(s, s');
    } else if level, in0, in1 :| StartCompaction(s, s', level, in0, in1) && NothingResurfaces(s.version, level, in0, in1, Oldest(s)) {
      StartKeeps(s, s', level, in0, in1);
    } else if level, f :| MoveTable(s, s', level, f) && NonePassed(s.version, level, [f], Oldest(s)) {
      MoveKeeps(s, s', level, f);
    }
  }
}
