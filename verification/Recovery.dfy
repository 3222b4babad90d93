/** DBImpl::Recover and RecoverLogFile: turning logs back into tables (db/db_impl.cc). */
module Recovery {
  import opened Bytes
  import opened InternalKeys
  import opened Version
  import opened Compaction
  import opened Installing
  import opened History
  import opened VersionReads
  import opened Builder
  import opened Manifests
  import opened Engine
  import opened Database

  /** The logs to replay, in the order in which they were generated. */
  method SortedNumbers(numbers: set<nat>) returns (r: seq<nat>)
    ensures forall n :: n in r <==> n in numbers
    ensures forall i, j :: 0 <= i < j < |r| ==> r[i] < r[j]
  {
    r := [];
    var todo := numbers;
    while todo != {}
      invariant forall n :: n in r <==> n in numbers && n !in todo
      invariant todo <= numbers
      invariant forall i, j :: 0 <= i < j < |r| ==> r[i] < r[j]
      decreases todo
    {
      var n :| n in todo;
      todo := todo - {n};
      r := InsertNumber(r, n);
    }
  }

  method InsertNumber(r: seq<nat>, n: nat) returns (r': seq<nat>)
    requires n !in r && forall i, j :: 0 <= i < j < |r| ==> r[i] < r[j]
    ensures forall m :: m in r' <==> m == n || m in r
    ensures forall i, j :: 0 <= i < j < |r'| ==> r'[i] < r'[j]
  {
    var at := 0;
    while at < |r| && r[at] < n
      invariant at <= |r|
      invariant forall i :: 0 <= i < at ==> r[i] < n
    {
      at := at + 1;
    }
    assert at < |r| ==> r[at] in r;
    r' := r[..at] + [n] + r[at..];
    NumberIn(r, n, at);
  }

  lemma NumberIn(r: seq<nat>, n: nat, at: nat)
    requires at <= |r| && n !in r && forall i, j :: 0 <= i < j < |r| ==> r[i] < r[j]
    requires forall i :: 0 <= i < at ==> r[i] < n
    requires at < |r| ==> n < r[at]
    ensures var r' := r[..at] + [n] + r[at..];
            (forall m :: m in r' <==> m == n || m in r) && forall i, j :: 0 <= i < j < |r'| ==> r'[i] < r'[j]
  {
    assert r == r[..at] + r[at..];
  }

  /** Sequence numbers increase along a log. */
  ghost predicate Increasing(entries: seq<Entry>)
  {
    && (forall i, j :: 0 <= i < j < |entries| ==> entries[i].seqno < entries[j].seqno)
    && (forall i :: 0 <= i < |entries| ==> entries[i].seqno <= MAX_SEQUENCE)
  }

  /** Tables written so far, for the part `all` of the logs. */
  ghost predicate Replayed(files: seq<File>, parts: seq<seq<Entry>>, first: nat, next: nat, all: seq<Entry>)
  {
    && TablesOf(files, parts, first) && Concat(parts) == all && first <= next
    && forall i :: 0 <= i < |files| ==> files[i].number < next
  }

  lemma WritePart(files: seq<File>, parts: seq<seq<Entry>>, first: nat, next: nat, all: seq<Entry>, part: seq<Entry>, f: File)
    requires Replayed(files, parts, first, next, all)
    requires FileOk(f) && f.number == next && Entries(f.run) == Entries(part)
    ensures Replayed(files + [f], parts + [part], first, next + 1, all + part)
  {
    assert (parts + [part])[..|parts|] == parts;
  }

  /** A memtable filled from a stretch of the log. */
  ghost predicate Loaded(mem: seq<Entry>, part: seq<Entry>)
  {
    Sorted(mem) && Entries(mem) == Entries(part)
  }

  lemma LoadedFile(mem: seq<Entry>, part: seq<Entry>, before: seq<Entry>, all: seq<Entry>, number: nat, size: nat)
    requires Loaded(mem, part) && mem != [] && Increasing(all) && before + part <= all
    ensures FileOk(NewFile(number, size, mem))
  {
    forall i | 0 <= i < |mem|
      ensures mem[i].seqno <= MAX_SEQUENCE
    {
      assert mem[i] in Entries(part);
      var j :| 0 <= j < |part| && part[j] == mem[i];
      assert (before + part)[|before| + j] == all[|before| + j];
    }
  }

  /** Inserting one log record. */
  method LoadRecord(mem: seq<Entry>, record: seq<Entry>, ghost before: seq<Entry>, ghost part: seq<Entry>, ghost all: seq<Entry>)
    returns (r: seq<Entry>)
    requires Loaded(mem, part) && Increasing(all) && before + part + record <= all
    ensures Loaded(r, part + record)
  {
    hide Increasing;
    RecordIsNew(record, before, part, all);
    assert forall x :: x in mem ==> x in Entries(part);
    r := InsertEntries(mem, record);
  }

  lemma RecordIsNew(record: seq<Entry>, before: seq<Entry>, part: seq<Entry>, all: seq<Entry>)
    requires Increasing(all) && before + part + record <= all
    ensures forall i, j :: 0 <= i < j < |record| ==> record[i].seqno < record[j].seqno
    ensures forall x, i :: x in Entries(part) && 0 <= i < |record| ==> x.seqno < record[i].seqno
  {
    hide Increasing, Entries;
    PartsOfAll(record, before, part, all);
    PartsIncrease(all, |before|, part, record);
  }

  lemma PartsIncrease(all: seq<Entry>, b: nat, part: seq<Entry>, record: seq<Entry>)
    requires Increasing(all) && b + |part| + |record| <= |all|
    requires forall i :: 0 <= i < |part| ==> part[i] == all[b + i]
    requires forall i :: 0 <= i < |record| ==> record[i] == all[b + |part| + i]
    ensures forall i, j :: 0 <= i < j < |record| ==> record[i].seqno < record[j].seqno
    ensures forall x, i :: x in Entries(part) && 0 <= i < |record| ==> x.seqno < record[i].seqno
  {
    hide Increasing;
    forall x, i | x in Entries(part) && 0 <= i < |record|
      ensures x.seqno < record[i].seqno
    {
      var j :| 0 <= j < |part| && part[j] == x;
      IncreasingAt(all, b + j, b + |part| + i);
    }
    forall i, j | 0 <= i < j < |record|
      ensures record[i].seqno < record[j].seqno
    {
      IncreasingAt(all, b + |part| + i, b + |part| + j);
    }
  }

  lemma IncreasingAt(all: seq<Entry>, i: nat, j: nat)
    requires Increasing(all) && i < j < |all|
    ensures all[i].seqno < all[j].seqno
  {
  }

  lemma PartsOfAll(record: seq<Entry>, before: seq<Entry>, part: seq<Entry>, all: seq<Entry>)
    requires before + part + record <= all
    ensures |before| + |part| + |record| <= |all|
    ensures forall i :: 0 <= i < |part| ==> part[i] == all[|before| + i]
    ensures forall i :: 0 <= i < |record| ==> record[i] == all[|before| + |part| + i]
  {
    var front := before + part + record;
    forall i | 0 <= i < |part|
      ensures part[i] == all[|before| + i]
    {
      assert front[|before| + i] == all[|before| + i];
    }
    forall i | 0 <= i < |record|
      ensures record[i] == all[|before| + |part| + i]
    {
      assert front[|before| + |part| + i] == all[|before| + |part| + i];
    }
  }

  lemma ConcatTake(records: seq<seq<Entry>>, i: nat)
    requires i < |records|
    ensures Concat(records[..i + 1]) == Concat(records[..i]) + records[i]
  {
    assert records[..i + 1][..i] == records[..i];
  }

  lemma {:induction false} ConcatPrefix(records: seq<seq<Entry>>, i: nat)
    requires i <= |records|
    ensures Concat(records[..i]) <= Concat(records)
    decreases |records| - i
  {
    if i < |records| {
      ConcatTake(records, i);
      ConcatPrefix(records, i + 1);
    } else {
      assert records[..i] == records;
    }
  }

  /** WriteLevel0Table without a base version; an empty memtable leaves no table. */
  method WriteLevel0Table(mem: seq<Entry>, files: seq<File>, next: nat, sizeOf: seq<Entry> -> nat, ghost parts: seq<seq<Entry>>,
                          ghost first: nat, ghost all: seq<Entry>, ghost before: seq<Entry>, ghost part: seq<Entry>, ghost log: seq<Entry>)
    returns (files': seq<File>, next': nat, ghost parts': seq<seq<Entry>>)
    requires Loaded(mem, part) && Increasing(log) && before + part <= log
    requires Replayed(files, parts, first, next, all + before)
    ensures Replayed(files', parts', first, next', all + (before + part)) && next <= next'
  {
    files', next', parts' := files, next, parts;
    assert (all + before) + part == all + (before + part);
    if mem != [] {
      LoadedFile(mem, part, before, log, next, sizeOf(mem));
      WritePart(files, parts, first, next, all + before, part, NewFile(next, sizeOf(mem), mem));
      files', next', parts' := files + [NewFile(next, sizeOf(mem), mem)], next + 1, parts + [part];
    } else {
      FirstEntry(part);
      assert before + part == before;
    }
  }

  /** last_seq of a record against max_sequence. */
  method Highest(ghost read: seq<Entry>, record: seq<Entry>, ghost log: seq<Entry>, max: nat, ghost start: nat) returns (r: nat)
    requires Increasing(log) && read + record <= log && max == LastReplayed(read, start)
    ensures r == LastReplayed(read + record, start)
  {
    r := max;
    if record != [] {
      var last := record[|record| - 1].seqno;
      assert (read + record)[|read + record| - 1] == record[|record| - 1];
      if read != [] {
        assert log[|read| - 1] == (read + record)[|read| - 1];
        assert log[|read| + |record| - 1] == (read + record)[|read| + |record| - 1];
      }
      if last > max { r := last; }
    } else {
      assert read + record == read;
    }
  }

  /** One log record: into the memtable, and its last sequence number against max_sequence. */
  method ReadRecord(mem: seq<Entry>, record: seq<Entry>, ghost before: seq<Entry>, ghost part: seq<Entry>, ghost log: seq<Entry>,
                    max: nat, ghost start: nat)
    returns (mem': seq<Entry>, max': nat)
    requires Loaded(mem, part) && Increasing(log) && before + part + record <= log
    requires max == LastReplayed(before + part, start)
    ensures Loaded(mem', part + record) && before + (part + record) == before + part + record
    ensures max' == LastReplayed(before + (part + record), start)
  {
    assert before + (part + record) == before + part + record;
    mem' := LoadRecord(mem, record, before, part, log);
    max' := Highest(before + part, record, log, max, start);
  }

  lemma NothingLoaded(records: seq<seq<Entry>>, maxSequence: nat)
    ensures Loaded([], []) && LastReplayed([] + [], maxSequence) == maxSequence && Concat(records[..0]) == [] + []
  {
  }

  /** RecoverLogFile: whenever the memtable is full it becomes a level-0 table, and what is left at the end too. */
  method RecoverLogFile(records: seq<seq<Entry>>, files: seq<File>, ghost parts: seq<seq<Entry>>, ghost first: nat, next: nat,
                        maxSequence: nat, full: seq<Entry> -> bool, sizeOf: seq<Entry> -> nat, ghost all: seq<Entry>)
    returns (files': seq<File>, ghost parts': seq<seq<Entry>>, next': nat, max': nat)
    requires Replayed(files, parts, first, next, all) && Increasing(Concat(records))
    ensures Replayed(files', parts', first, next', all + Concat(records))
    ensures next <= next'
    ensures max' == LastReplayed(Concat(records), maxSequence)
  {
    hide Replayed, ILess, Loaded, Increasing, LastReplayed, Sorted, Concat;
    files', parts', next', max' := files, parts, next, maxSequence;
    ghost var log := Concat(records);
    var mem: seq<Entry> := [];
    ghost var before: seq<Entry>, part: seq<Entry> := [], [];
    NothingLoaded(records, maxSequence);
    assert all + before == all;
    for i := 0 to |records|
      invariant Loaded(mem, part) && before + part == Concat(records[..i]) && before + part <= log
      invariant Replayed(files', parts', first, next', all + before) && next <= next'
      invariant max' == LastReplayed(before + part, maxSequence)
    {
      ConcatTake(records, i);
      ConcatPrefix(records, i + 1);
      mem, max' := ReadRecord(mem, records[i], before, part, log, max', maxSequence);
      part := part + records[i];
      if full(mem) {
        files', next', parts' := WriteLevel0Table(mem, files', next', sizeOf, parts', first, all, before, part, log);
        before, part, mem := before + part, [], [];
        NothingLoaded(records, maxSequence);
        assert before + part == before;
      }
    }
    assert records[..|records|] == records;
    files', next', parts' := WriteLevel0Table(mem, files', next', sizeOf, parts', first, all, before, part, log);
  }

  // ------------------------------------------------------------------ DB::Open

  lemma ReplayTake(logs: map<nat, seq<seq<Entry>>>, numbers: seq<nat>, i: nat)
    requires i < |numbers| && forall n :: n in numbers ==> n in logs
    ensures forall n :: n in numbers[..i + 1] ==> n in logs
    ensures forall n :: n in numbers[..i] ==> n in logs
    ensures ReplayOf(logs, numbers[..i + 1]) == ReplayOf(logs, numbers[..i]) + Concat(logs[numbers[i]])
  {
    assert numbers[..i + 1][..i] == numbers[..i];
    assert forall j :: 0 <= j < |numbers| ==> numbers[j] in numbers;
  }

  lemma {:induction false} ReplayPrefix(logs: map<nat, seq<seq<Entry>>>, numbers: seq<nat>, i: nat)
    requires i <= |numbers| && forall n :: n in numbers ==> n in logs
    ensures forall n :: n in numbers[..i] ==> n in logs
    ensures ReplayOf(logs, numbers[..i]) <= ReplayOf(logs, numbers)
    decreases |numbers| - i
  {
    if i < |numbers| {
      ReplayTake(logs, numbers, i);
      ReplayPrefix(logs, numbers, i + 1);
    } else {
      assert numbers[..i] == numbers;
    }
  }

  /** What the live logs hold, read in order, has increasing sequence numbers. */
  lemma ReplayIncreases(s: Db, numbers: seq<nat>)
    requires Inv(s) && LiveLogs(s.logs, CountersOf(s.manifest).logNumber, numbers)
    ensures Increasing(ReplayOf(s.logs, numbers))
  {
    hide DiskInv, Faithful, RunningInv, SnapshotsInv, ReplayOf;
    ReplayIsTail(s, numbers);
    var all := s.history + s.pending;
    forall i | 0 <= i < |ReplayOf(s.logs, numbers)|
      ensures ReplayOf(s.logs, numbers)[i].seqno == s.flushed + i + 1
    {
      assert all[s.flushed..][i] == all[s.flushed + i];
    }
  }

  /** One more log of an increasing replay, and the largest sequence number after it. */
  lemma ReplayStep(logs: map<nat, seq<seq<Entry>>>, numbers: seq<nat>, i: nat, start: nat)
    requires i < |numbers| && forall n :: n in numbers ==> n in logs
    requires Increasing(ReplayOf(logs, numbers))
    ensures forall n :: n in numbers[..i + 1] || n in numbers[..i] ==> n in logs
    ensures Increasing(Concat(logs[numbers[i]]))
    ensures ReplayOf(logs, numbers[..i + 1]) == ReplayOf(logs, numbers[..i]) + Concat(logs[numbers[i]])
    ensures LastReplayed(Concat(logs[numbers[i]]), LastReplayed(ReplayOf(logs, numbers[..i]), start))
         == LastReplayed(ReplayOf(logs, numbers[..i + 1]), start)
  {
    ReplayTake(logs, numbers, i);
    ReplayPrefix(logs, numbers, i + 1);
    MoreReplayed(ReplayOf(logs, numbers[..i]), Concat(logs[numbers[i]]), ReplayOf(logs, numbers), start);
  }

  lemma MoreReplayed(read: seq<Entry>, more: seq<Entry>, all: seq<Entry>, start: nat)
    requires Increasing(all) && read + more <= all
    ensures Increasing(more)
    ensures LastReplayed(more, LastReplayed(read, start)) == LastReplayed(read + more, start)
  {
    IncreasingPart(read, more, all);
    if more == [] {
      assert read + more == read;
    } else {
      var n, last := |read|, |read + more| - 1;
      assert (read + more)[last] == more[|more| - 1] == all[last];
      if n > 0 { assert (read + more)[n - 1] == read[n - 1] == all[n - 1]; }
    }
  }

  lemma IncreasingPart(before: seq<Entry>, part: seq<Entry>, all: seq<Entry>)
    requires Increasing(all) && before + part <= all
    ensures Increasing(part)
  {
    forall i | 0 <= i < |part|
      ensures part[i] == all[|before| + i]
    {
      assert (before + part)[|before| + i] == part[i];
    }
  }

  /** MarkFileNumberUsed. */
  function Past(next: nat, number: nat): (r: nat)
    ensures next <= r && number < r
  {
    if next <= number then number + 1 else next
  }

  lemma NothingReplayed(logs: map<nat, seq<seq<Entry>>>, first: nat, next: nat)
    requires first <= next
    ensures Replayed([], [], first, next, ReplayOf(logs, [])) && LastReplayed(ReplayOf(logs, []), 0) == 0
  {
  }

  lemma ReplayedLater(files: seq<File>, parts: seq<seq<Entry>>, first: nat, next: nat, next': nat, all: seq<Entry>)
    requires Replayed(files, parts, first, next, all) && next <= next'
    ensures Replayed(files, parts, first, next', all)
  {
  }

  /** The replay loop of DBImpl::Recover. */
  method ReplayLogs(ghost s: Db, logs: map<nat, seq<seq<Entry>>>, numbers: seq<nat>, ghost first: nat, start: nat,
                    full: seq<Entry> -> bool, sizeOf: seq<Entry> -> nat)
    returns (files: seq<File>, ghost parts: seq<seq<Entry>>, next: nat, max: nat)
    requires Inv(s) && logs == s.logs && LiveLogs(logs, CountersOf(s.manifest).logNumber, numbers) && first <= start
    ensures Replayed(files, parts, first, next, ReplayOf(logs, numbers))
    ensures max == LastReplayed(ReplayOf(logs, numbers), 0)
    ensures start <= next && forall i :: 0 <= i < |numbers| ==> numbers[i] < next
  {
    hide Inv, Replayed, ReplayOf, LastReplayed, Increasing, CountersOf;
    ReplayIncreases(s, numbers);
    files, parts, next, max := [], [], start, 0;
    NothingReplayed(logs, first, start);
    assert numbers[..0] == [];
    for i := 0 to |numbers|
      invariant forall n :: n in numbers[..i] ==> n in logs
      invariant Replayed(files, parts, first, next, ReplayOf(logs, numbers[..i]))
      invariant max == LastReplayed(ReplayOf(logs, numbers[..i]), 0)
      invariant start <= next && forall j :: 0 <= j < i ==> numbers[j] < next
    {
      ReplayStep(logs, numbers, i, 0);
      assert numbers[i] in numbers;
      files, parts, next, max :=
        RecoverLogFile(logs[numbers[i]], files, parts, first, next, max, full, sizeOf, ReplayOf(logs, numbers[..i]));
      ReplayedLater(files, parts, first, next, Past(next, numbers[i]), ReplayOf(logs, numbers[..i + 1]));
      next := Past(next, numbers[i]);
    }
    assert numbers[..|numbers|] == numbers;
  }

  /** What is known once the logs are replayed: only the disk of `s` went into it. */
  function Reopened(s: Db, version: Levels, manifest: Manifest, lastSequence: nat, log: nat): Db
  {
    s.(mem := [], imm := None, version := version, lastSequence := lastSequence, nextFile := log + 1,
       logFile := log, pending := [], snapshots := [], running := None, logs := s.logs[log := []], manifest := manifest,
       history := s.history + s.pending, flushed := |s.history + s.pending|, sealed := |s.history + s.pending|)
  }

  lemma IsRecovery(s: Db, s': Db, recovered: Levels, numbers: seq<nat>, parts: seq<seq<Entry>>, files: seq<File>, last: nat, log: nat)
    requires Inv(s) && LiveLogs(s.logs, CountersOf(s.manifest).logNumber, numbers)
    requires Complete(s.manifest) && Ordered(recovered) && Tables(recovered) == Saved(NoTables(), Accumulate(Edits(s.manifest)))
    requires Replayed(files, parts, CountersOf(s.manifest).nextFile, log, ReplayOf(s.logs, numbers)) && CountersOf(s.manifest).nextFile <= log
    requires forall i :: 0 <= i < |numbers| ==> numbers[i] < log
    requires last == LastReplayed(ReplayOf(s.logs, numbers), CountersOf(s.manifest).lastSequence)
    requires Edited(recovered, s'.version, AtLevel0(files))
    requires s' == Reopened(s, s'.version, NewManifest(recovered, AtLevel0(files), log, last, log + 1), last, log)
    ensures CrashAndRecover(s, s', recovered, numbers, parts, files)
  {
    hide Inv, Edited, Ordered, Complete, Tables, Saved, Accumulate, ReplayOf, LastReplayed, CountersOf, TablesOf, NewManifest;
    LogsBelow(s, numbers, log);
  }

  /** The new log has a number above all that are there. */
  lemma LogsBelow(s: Db, numbers: seq<nat>, log: nat)
    requires Inv(s) && LiveLogs(s.logs, CountersOf(s.manifest).logNumber, numbers)
    requires forall i :: 0 <= i < |numbers| ==> numbers[i] < log
    ensures forall n :: n in s.logs ==> n < log
  {
    hide Describes, Faithful, RunningInv, SnapshotsInv, CountersOf;
    assert s.logFile in numbers;
    assert forall n :: n in s.logs ==> n <= s.logFile;
  }

  method Reopen(db: DBImpl, version: Levels, manifest: Manifest, lastSequence: nat, log: nat)
    modifies db
    ensures db.State() == Reopened(old(db.State()), version, manifest, lastSequence, log)
  {
    db.mem, db.imm, db.pending, db.snapshots, db.running := [], None, [], [], None;
    db.version, db.lastSequence, db.nextFile, db.logFile := version, lastSequence, log + 1, log;
    db.logs, db.manifest := db.logs[log := []], manifest;
    db.history := old(db.history + db.pending);
    db.flushed, db.sealed := |db.history|, |db.history|;
  }

  /** The manifest of a valid database can be replayed, and gives the version it described. */
  lemma ManifestReplays(s: Db)
    requires Inv(s)
    ensures Replayable(s.manifest) && Complete(s.manifest)
    ensures Saved(NoTables(), Accumulate(Edits(s.manifest))) == SavedInTurn(NoTables(), Edits(s.manifest))
  {
    hide MemoryInv, Faithful, RunningInv;
    ReplayRebuildsVersion(NoTables(), Edits(s.manifest));
  }

  /** The recovered tables can be added to the recovered version. */
  lemma RecoveredCanBeAdded(s: Db, recovered: Levels, files: seq<File>, parts: seq<seq<Entry>>)
    requires Inv(s) && TablesOf(files, parts, CountersOf(s.manifest).nextFile)
    requires Ordered(recovered) && Tables(recovered) == SavedInTurn(NoTables(), Edits(s.manifest))
    ensures EditOk(AtLevel0(files))
    ensures forall l: nat, a, g :: l < NUM_LEVELS && (l, a) in AtLevel0(files).added && g in recovered[l] ==> a.number != g.number
  {
    hide Inv, Describes, Ordered, EditOk, NewOrSinking, FilesOk, Once, Shape, AtLevel0, TablesOf;
    VersionFacts(s);
    ManifestReplays(s);
    RebuiltIsCurrent(s.manifest, s.version, recovered);
    AllLevels(s.version);
    RecoveredEdit(recovered, files, parts, CountersOf(s.manifest).nextFile);
    DescribedIsFresh(s.manifest, s.version, AtLevel0(files));
  }

  /** DBImpl::Recover and the rest of DB::Open: only the manifest and the logs are read. */
  method Recover(db: DBImpl, full: seq<Entry> -> bool, sizeOf: seq<Entry> -> nat)
    requires db.Valid()
    modifies db
    ensures db.Valid()
    ensures exists recovered, numbers, parts, files :: CrashAndRecover(old(db.State()), db.State(), recovered, numbers, parts, files)
  {
    hide Inv, CrashAndRecover, ReplayOf, EditOk, Edited, Ordered, Saved, SavedInTurn, Accumulate, Edits, Tables, Replayable, Complete, CountersOf, TablesOf, LastReplayed, Snapshot;
    ghost var s := db.State();
    ManifestReplays(s);
    var m := Manifests.Recover(db.manifest);
    var recovered, counters := m.value.0, m.value.1;
    var numbers := SortedNumbers(set n | n in db.logs && counters.logNumber <= n);
    assert LiveLogs(db.logs, counters.logNumber, numbers);
    var files, parts, next, max := ReplayLogs(s, db.logs, numbers, counters.nextFile, counters.nextFile + 1, full, sizeOf);
    ReplayedTables(files, parts, counters.nextFile, next, ReplayOf(db.logs, numbers));
    RecoveredCanBeAdded(s, recovered, files, parts);
    var last := if counters.lastSequence < max then max else counters.lastSequence;
    HighestOverall(ReplayOf(db.logs, numbers), counters.lastSequence);
    var snapshot := WriteSnapshot(recovered);
    var version := ApplyEdit(recovered, AtLevel0(files));
    var manifest := [snapshot, Record(AtLevel0(files), Some(next), Some(last), Some(next + 1))];
    Reopen(db, version, manifest, last, next);
    IsRecovery(s, db.State(), recovered, numbers, parts, files, last, next);
    RecoverKeeps(s, db.State(), recovered, numbers, parts, files);
  }

  lemma ReplayedTables(files: seq<File>, parts: seq<seq<Entry>>, first: nat, next: nat, all: seq<Entry>)
    requires Replayed(files, parts, first, next, all)
    ensures TablesOf(files, parts, first)
  {
  }

  /** The larger of the largest number read and the one the manifest knew. */
  lemma HighestOverall(replay: seq<Entry>, lastSequence: nat)
    ensures LastReplayed(replay, lastSequence) ==
            if lastSequence < LastReplayed(replay, 0) then LastReplayed(replay, 0) else lastSequence
  {
  }
}
