/** When files may go: DBImpl::DeleteObsoleteFiles and the steps around it (db/db_impl.cc). */
module Collecting {
  import opened InternalKeys
  import opened Lifetimes

  datatype FileType = LogFile | DescriptorFile | TableFile | TempFile | CurrentFile | LockFile | InfoLogFile

  datatype FileName = FileName(kind: FileType, number: nat)

  function Table(number: nat): FileName { FileName(TableFile, number) }

  /** A memtable on its way into table `number`; `base` is the version that was current when it set out. */
  datatype Flush = Flush(number: nat, base: Version)

  /** A compaction of files of `input`, which it holds, into `outputs`, of which `written` are on disk. */
  datatype Job = Job(input: Version, inputs: set<Placed>, outputs: set<nat>, written: set<nat>)

  /** The version names the table. */
  ghost predicate Names(v: Version, number: nat)
  {
    exists i :: 0 <= i < |v.files| && v.files[i].file.number == number
  }

  // ------------------------------------------------------------------ who holds versions

  /** The version set for the current version, each read for its own, a flush for its base, a compaction for its input. */
  ghost function Holders(current: Version, readers: multiset<Version>, base: Option<Version>, input: Option<Version>): multiset<Version>
  {
    multiset{current} + readers + Single(base) + Single(input)
  }

  ghost function Single(v: Option<Version>): multiset<Version>
  {
    if v.Some? then multiset{v.value} else multiset{}
  }

  lemma OneReaderMore(c: Version, r: multiset<Version>, b: Option<Version>, i: Option<Version>, v: Version)
    ensures Holders(c, r + multiset{v}, b, i) == Holders(c, r, b, i) + multiset{v}
  {
  }

  lemma OneReaderLess(c: Version, r: multiset<Version>, b: Option<Version>, i: Option<Version>, v: Version)
    requires v in r
    ensures Holders(c, r - multiset{v}, b, i) == Holders(c, r, b, i) - multiset{v} && c in Holders(c, r, b, i) - multiset{v}
    ensures v in Holders(c, r, b, i)
  {
    hide Holders;
    var rest := r - multiset{v};
    assert r == rest + multiset{v};
    OneReaderMore(c, rest, b, i, v);
    HasCurrent(c, rest, b, i);
    assert Holders(c, rest, b, i) + multiset{v} - multiset{v} == Holders(c, rest, b, i);
  }

  lemma HasCurrent(c: Version, r: multiset<Version>, b: Option<Version>, i: Option<Version>)
    ensures c in Holders(c, r, b, i)
  {
  }

  lemma OneBase(c: Version, r: multiset<Version>, i: Option<Version>, v: Version)
    ensures Holders(c, r, Some(v), i) == Holders(c, r, None, i) + multiset{v}
    ensures Holders(c, r, Some(v), i) - multiset{v} == Holders(c, r, None, i) && c in Holders(c, r, None, i)
    ensures v in Holders(c, r, Some(v), i)
  {
  }

  lemma OneInput(c: Version, r: multiset<Version>, b: Option<Version>, v: Version)
    ensures Holders(c, r, b, Some(v)) == Holders(c, r, b, None) + multiset{v}
    ensures Holders(c, r, b, Some(v)) - multiset{v} == Holders(c, r, b, None) && c in Holders(c, r, b, None)
    ensures v in Holders(c, r, b, Some(v))
  {
  }

  lemma OtherCurrent(c: Version, r: multiset<Version>, b: Option<Version>, i: Option<Version>, v: Version)
    ensures Holders(v, r, b, i) == Holders(c, r, b, i) - multiset{c} + multiset{v}
  {
  }

  /**
   * Methods are what happens without letting go of the mutex. The background thread is alone: its flush, its compaction
   * and the version it is installing go one at a time, a flush possibly in the middle of a compaction.
   */
  class DBImpl {
    const versions: VersionSet
    var pendingOutputs: set<nat>
    var nextFileNumber: nat
    var logNumber: nat
    var manifestFileNumber: nat
    var directory: set<FileName>
    var flush: Option<Flush>
    var compaction: Option<Job>
    var installing: Option<Version>
    /** The versions that reads and iterators hold. */
    ghost var readers: multiset<Version>

    ghost predicate Valid()
      reads this, versions, versions.versions, versions.building, versions.files
    {
      versions.Valid() && Holding() && OutputsPending() && TablesPresent() && JobPresent()
    }

    /** Who holds a version, and what is being installed. */
    ghost predicate Holding()
      reads this, versions
    {
      && versions.building == (if installing.Some? then [installing.value] else [])
      && (installing.Some? ==> flush.None?)
      && versions.holders == Holders(versions.current, readers, Base(), Input())
    }

    ghost function Base(): Option<Version>
      reads this
    {
      if flush.Some? then Some(flush.value.base) else None
    }

    ghost function Input(): Option<Version>
      reads this
    {
      if compaction.Some? then Some(compaction.value.input) else None
    }

    ghost predicate OutputsPending()
      reads `pendingOutputs, `nextFileNumber, `flush, `compaction
    {
      && pendingOutputs == (if flush.Some? then {flush.value.number} else {})
         + (if compaction.Some? then compaction.value.outputs else {})
      && (forall n :: n in pendingOutputs ==> n < nextFileNumber)
      && (flush.Some? && compaction.Some? ==> flush.value.number !in compaction.value.outputs)
    }

    /** Every table that a version names, of any that is read, compacted, current or about to be, is in the directory. */
    ghost predicate TablesPresent()
      reads `directory, versions`versions, versions`building
    {
      forall v, n :: v in versions.All() && Names(v, n) ==> Table(n) in directory
    }

    /** The compaction's inputs are of its version, and its finished outputs are in the directory. */
    ghost predicate JobPresent()
      reads `directory, `compaction
    {
      compaction.Some? ==>
        && (forall p :: p in compaction.value.inputs ==> Names(compaction.value.input, p.file.number))
        && compaction.value.written <= compaction.value.outputs
        && (forall n :: n in compaction.value.written ==> Table(n) in directory)
    }

    constructor ()
      ensures Valid() && installing == None && flush == None && compaction == None && readers == multiset{}
    {
      versions := new VersionSet();
      pendingOutputs, nextFileNumber, logNumber, manifestFileNumber := {}, 2, 0, 0;
      directory, flush, compaction, installing, readers := {}, None, None, None, multiset{};
    }

    /** The keeping rule of DeleteObsoleteFiles. */
    predicate Keep(f: FileName, live: set<nat>)
      reads this
    {
      match f.kind
      case LogFile => f.number >= logNumber
      case DescriptorFile => f.number >= manifestFileNumber
      case TableFile => f.number in live
      case TempFile => f.number in live
      case _ => true
    }

    /** A table is live that some version names or that is being written. */
    ghost predicate Live(number: nat)
      reads this, versions
    {
      number in pendingOutputs || exists v :: v in versions.versions && Names(v, number)
    }

    /** DeleteObsoleteFiles: of the tables it leaves exactly the live ones. */
    method DeleteObsoleteFiles()
      requires Valid() && installing == None
      modifies this`directory
      ensures Valid()
      ensures forall n :: Table(n) in directory <==> Table(n) in old(directory) && Live(n)
      ensures forall f: FileName :: f.kind != TableFile && f.kind != TempFile ==>
        (f in directory <==> f in old(directory) && Keep(f, {}))
    {
      hide VersionSet.VersionsCounted, VersionSet.FilesCounted, Holders;
      var live := versions.AddLiveFiles(pendingOutputs);
      AreLive(live);
      var kept, left := {}, directory;
      while left != {}
        invariant left <= directory
        invariant forall f :: f in kept <==> f in directory && f !in left && Keep(f, live)
      {
        var f :| f in left;
        if Keep(f, live) {
          kept := kept + {f};
        }
        left := left - {f};
      }
      directory := kept;
    }

    lemma AreLive(live: set<nat>)
      requires forall n :: n in live <==>
        (n in pendingOutputs || exists v, i :: v in versions.versions && 0 <= i < |v.files| && v.files[i].file.number == n)
      ensures forall n :: n in live <==> Live(n)
    {
      forall n | Live(n) ensures n in live {
        if n !in pendingOutputs {
          var v :| v in versions.versions && Names(v, n);
        }
      }
    }

    /** One reference less, of a holder other than the current version's own. */
    method Drop(v: Version)
      requires versions.Valid() && TablesPresent() && v in versions.holders && versions.current in versions.holders - multiset{v}
      modifies v, versions`holders, versions`versions, versions`files, versions.files
      ensures versions.Valid() && TablesPresent() && versions.holders == old(versions.holders) - multiset{v}
      ensures versions.files <= old(versions.files)
    {
      hide VersionSet.FilesCounted;
      versions.Unref(v);
      assert versions.current in versions.holders;
      forall w, n | w in versions.All() && Names(w, n) ensures Table(n) in directory {
        assert w in old(versions.All());
      }
    }

    /** LogAndApply's first half, for an edit whose new tables are there. */
    method Build(edit: Edit) returns (v: Version)
      requires versions.Valid() && TablesPresent() && versions.building == []
      requires forall a :: a in edit.added ==> Table(a.1) in directory
      modifies versions, versions.files, versions.current
      ensures versions.Valid() && TablesPresent() && versions.building == [v] && versions.holders == old(versions.holders)
      ensures versions.current == old(versions.current)
    {
      hide VersionSet.FilesCounted, VersionSet.VersionsCounted;
      v := versions.Build(edit);
      NamesAfter(versions.current, v, edit);
    }

    // ---------------------------------------------------------------- reads

    /** Get and NewInternalIterator take the current version. */
    method TakeVersion() returns (v: Version)
      requires Valid()
      modifies this`readers, versions`holders, versions.current
      ensures Valid() && v == versions.current && readers == old(readers) + multiset{v}
    {
      hide VersionSet.FilesCounted, Holders;
      v := versions.current;
      OneReaderMore(v, readers, Base(), Input(), v);
      versions.Ref(v);
      readers := readers + multiset{v};
    }

    /** The end of a read, CleanupIteratorState. */
    method ReleaseVersion(v: Version)
      requires Valid() && v in readers
      modifies this`readers, v, versions`holders, versions`versions, versions`files, versions.files
      ensures Valid() && readers == old(readers) - multiset{v}
    {
      hide VersionSet.VersionsCounted, VersionSet.FilesCounted, Holders;
      OneReaderLess(versions.current, readers, Base(), Input(), v);
      Drop(v);
      readers := readers - multiset{v};
    }

    // ---------------------------------------------------------------- flushes

    /** CompactMemTable, and WriteLevel0Table up to where it lets go of the mutex. */
    method BeginFlush()
      requires Valid() && flush == None && installing == None
      modifies this`flush, this`pendingOutputs, this`nextFileNumber, versions`holders, versions.current
      ensures Valid() && flush.Some?
    {
      hide VersionSet.VersionsCounted, VersionSet.FilesCounted, Holders, TablesPresent, JobPresent;
      var base := versions.current;
      OneBase(base, readers, Input(), base);
      versions.Ref(base);
      flush := Some(Flush(nextFileNumber, base));
      pendingOutputs := pendingOutputs + {nextFileNumber};
      nextFileNumber := nextFileNumber + 1;
    }

    /** BuildTable. */
    method WriteFlush()
      requires Valid() && flush.Some?
      modifies this`directory
      ensures Valid() && Table(flush.value.number) in directory
    {
      hide VersionSet.VersionsCounted, VersionSet.FilesCounted, Holders;
      directory := directory + {Table(flush.value.number)};
    }

    /** The rest of WriteLevel0Table, and LogAndApply up to where it lets go; an empty memtable leaves no table. */
    method FinishFlush(level: nat, wrote: bool)
      requires Valid() && flush.Some? && (wrote ==> Table(flush.value.number) in directory)
      modifies this`flush, this`installing, this`pendingOutputs, versions, versions.files, flush.value.base, versions.current
      ensures Valid() && flush == None && installing.Some?
    {
      hide VersionSet.VersionsCounted, VersionSet.FilesCounted, Holders;
      var number := flush.value.number;
      LeaveFlush();
      var v := Build(Edit({}, if wrote then [(level, number)] else []));
      installing := Some(v);
    }

    method LeaveFlush()
      requires Valid() && flush.Some?
      modifies this`flush, this`pendingOutputs, flush.value.base
      modifies versions`holders, versions`versions, versions`files, versions.files
      ensures Valid() && flush == None && versions.files <= old(versions.files)
    {
      hide VersionSet.VersionsCounted, VersionSet.FilesCounted, Holders, TablesPresent, JobPresent, OutputsPending;
      var base := flush.value.base;
      OneBase(versions.current, readers, Input(), base);
      NoMorePending();
      Drop(base);
    }

    /** pending_outputs_.erase, of a flush. */
    method NoMorePending()
      requires flush.Some? && OutputsPending()
      modifies this`flush, this`pendingOutputs
      ensures flush == None && OutputsPending()
    {
      pendingOutputs := pendingOutputs - {flush.value.number};
      flush := None;
    }

    /** The rest of LogAndApply, after the manifest has been written; a flush then drops the logs before `log`. */
    method Install(log: nat)
      requires Valid() && installing.Some? && logNumber <= log
      modifies this`installing, this`logNumber, versions, installing.value, versions.current, versions.files
      ensures Valid() && installing == None && versions.current == old(installing.value)
    {
      hide VersionSet.VersionsCounted, VersionSet.FilesCounted, Holders;
      OtherCurrent(versions.current, readers, Base(), Input(), installing.value);
      versions.AppendVersion(installing.value);
      installing, logNumber := None, log;
    }

    // ---------------------------------------------------------------- compactions

    /** PickCompaction: the compaction holds the version whose files it reads. */
    method BeginCompaction(inputs: set<Placed>)
      requires Valid() && compaction == None && flush == None && installing == None
      requires forall p :: p in inputs ==> p in versions.current.files
      modifies this`compaction, versions`holders, versions.current
      ensures Valid() && compaction == Some(Job(versions.current, inputs, {}, {}))
    {
      hide VersionSet.VersionsCounted, VersionSet.FilesCounted, Holders, TablesPresent;
      var input := versions.current;
      OneInput(input, readers, Base(), input);
      versions.Ref(input);
      compaction := Some(Job(input, inputs, {}, {}));
    }

    /** OpenCompactionOutputFile. */
    method OpenOutput()
      requires Valid() && compaction.Some?
      modifies this`compaction, this`pendingOutputs, this`nextFileNumber
      ensures Valid() && compaction.Some? && old(nextFileNumber) in compaction.value.outputs
    {
      hide VersionSet.VersionsCounted, VersionSet.FilesCounted, Holders;
      compaction := Some(compaction.value.(outputs := compaction.value.outputs + {nextFileNumber}));
      pendingOutputs := pendingOutputs + {nextFileNumber};
      nextFileNumber := nextFileNumber + 1;
    }

    /** FinishCompactionOutputFile. */
    method FinishOutput(number: nat)
      requires Valid() && compaction.Some? && number in compaction.value.outputs
      modifies this`compaction, this`directory
      ensures Valid() && compaction.Some? && number in compaction.value.written
    {
      hide VersionSet.VersionsCounted, VersionSet.FilesCounted, Holders;
      directory := directory + {Table(number)};
      compaction := Some(compaction.value.(written := compaction.value.written + {number}));
    }

    /** What a compaction reads is there: it holds the version. */
    lemma InputsPresent()
      requires Valid()
      ensures compaction.Some? ==> forall p :: p in compaction.value.inputs ==> Table(p.file.number) in directory
    {
      hide VersionSet.FilesCounted, Holders, Names;
      if compaction.Some? {
        OneInput(versions.current, readers, Base(), compaction.value.input);
        assert compaction.value.input in versions.All();
      }
    }

    /**
     * InstallCompactionResults, and LogAndApply up to where it lets go: the edit adds finished outputs, or, in a trivial
     * move, an input to the next level.
     */
    method ApplyResults(edit: Edit)
      requires Valid() && compaction.Some? && flush == None && installing == None
      requires forall a :: a in edit.added ==>
        a.1 in compaction.value.written || exists p :: p in compaction.value.inputs && p.file.number == a.1
      modifies this`installing, versions, versions.files, versions.current
      ensures Valid() && installing.Some?
    {
      hide VersionSet.VersionsCounted, VersionSet.FilesCounted, Holders, Names;
      InputsPresent();
      var v := Build(edit);
      installing := Some(v);
    }

    /** CleanupCompaction, and ReleaseInputs or ~Compaction; all but a trivial move then collects. */
    method EndCompaction(collect: bool)
      requires Valid() && compaction.Some? && flush == None && installing == None
      modifies this`compaction, this`pendingOutputs, this`directory, versions, versions.files, compaction.value.input
      ensures Valid() && compaction == None
      ensures collect ==> forall n :: Table(n) in directory <==> Table(n) in old(directory) && Live(n)
    {
      hide VersionSet.VersionsCounted, VersionSet.FilesCounted, Holders, TablesPresent, OutputsPending, Live, Keep;
      var input := compaction.value.input;
      OneInput(versions.current, readers, Base(), input);
      CleanupCompaction();
      Drop(input);
      if collect {
        DeleteObsoleteFiles();
      }
    }

    /** CleanupCompaction: its outputs are not pending any more. */
    method CleanupCompaction()
      requires compaction.Some? && flush == None && OutputsPending()
      modifies this`compaction, this`pendingOutputs
      ensures compaction == None && pendingOutputs == {} && OutputsPending()
    {
      pendingOutputs := pendingOutputs - compaction.value.outputs;
      compaction := None;
    }
  }

  lemma NamesAfter(base: Version, v: Version, edit: Edit)
    requires PlacesOf(v.files) == AfterEdit(PlacesOf(base.files), edit)
    ensures forall n :: Names(v, n) ==> Names(base, n) || exists a :: a in edit.added && a.1 == n
  {
    forall n | Names(v, n) ensures Names(base, n) || exists a :: a in edit.added && a.1 == n {
      var i :| 0 <= i < |v.files| && v.files[i].file.number == n;
      var place := (v.files[i].level, n);
      assert place in PlacesOf(v.files);
      if place in Added(edit) {
        var k :| 0 <= k < |edit.added| && edit.added[k] == place;
        assert edit.added[k] in edit.added;
      } else {
        var j :| 0 <= j < |base.files| && place == (base.files[j].level, base.files[j].file.number);
      }
    }
  }

  /** When nobody reads and nothing runs, what is left of the tables, after a collection, is the current version's. */
  lemma OnlyCurrentIsLeft(db: DBImpl)
    requires db.Valid() && db.readers == multiset{} && db.flush == None && db.compaction == None
    requires forall n :: Table(n) in db.directory ==> db.Live(n)
    ensures forall n :: Table(n) in db.directory <==> Names(db.versions.current, n)
  {
    assert forall v :: v in db.versions.versions ==> v == db.versions.current;
    assert db.versions.current in db.versions.All();
  }
}
