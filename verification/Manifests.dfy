/** The manifest, a log of version edits, and VersionSet::Recover, which replays it (db/version_set.cc). */
module Manifests {
  import opened Bytes
  import opened InternalKeys
  import opened Version
  import opened Builder

  /** A manifest record: the file part of the edit, and the counters it may set. */
  datatype Record = Record(edit: Edit, logNumber: Option<nat>, lastSequence: Option<nat>, nextFile: Option<nat>)

  type Manifest = seq<Record>

  function Edits(m: Manifest): (r: seq<Edit>)
    ensures |r| == |m| && forall i :: 0 <= i < |m| ==> r[i] == m[i].edit
  {
    seq(|m|, i requires 0 <= i < |m| => m[i].edit)
  }

  datatype Counters = Counters(logNumber: nat, lastSequence: nat, nextFile: nat)

  function Set(before: nat, now: Option<nat>): nat { if now.Some? then now.value else before }

  /** Later records override earlier ones; Recover starts from zero. */
  function CountersOf(m: Manifest): Counters
  {
    if m == [] then Counters(0, 0, 0) else
      var before, last := CountersOf(m[..|m| - 1]), m[|m| - 1];
      Counters(Set(before.logNumber, last.logNumber), Set(before.lastSequence, last.lastSequence), Set(before.nextFile, last.nextFile))
  }

  /** Each counter was recorded at least once. */
  ghost predicate Complete(m: Manifest)
  {
    && (exists i :: 0 <= i < |m| && m[i].nextFile.Some?)
    && (exists i :: 0 <= i < |m| && m[i].logNumber.Some?)
    && (exists i :: 0 <= i < |m| && m[i].lastSequence.Some?)
  }

  ghost function NoTables(): (r: seq<set<File>>)
    ensures |r| == NUM_LEVELS
  {
    seq(NUM_LEVELS, _ => {})
  }

  function NoLevels(): (v: Levels)
    ensures |v| == NUM_LEVELS && forall l :: 0 <= l < NUM_LEVELS ==> v[l] == []
  {
    seq(NUM_LEVELS, _ => [])
  }

  lemma NoLevelsHold()
    ensures Tables(NoLevels()) == NoTables() && Ordered(NoLevels())
    ensures |NoLevels()| == NUM_LEVELS && forall l :: 0 <= l < NUM_LEVELS ==> NoLevels()[l] == []
  {
    assert forall l :: 0 <= l < NUM_LEVELS ==> Tables(NoLevels())[l] == {};
  }

  /** The edits can be applied one after the other: no level sees a file number twice. */
  ghost predicate Replayable(m: Manifest)
  {
    (forall i :: 0 <= i < |m| ==> EditOk(m[i].edit)) && AddedOnce(NoTables(), Edits(m))
  }

  lemma OneMoreRecord(m: Manifest, i: nat)
    requires i < |m|
    ensures Edits(m[..i + 1]) == Edits(m[..i]) + [m[i].edit]
    ensures Accumulate(Edits(m[..i + 1])) == WithEdit(Accumulate(Edits(m[..i])), m[i].edit)
    ensures m[..i + 1][..i] == m[..i] && m[..i + 1][i] == m[i] && Edits(m)[..i] == Edits(m[..i])
  {
    assert Edits(m[..i + 1])[..i] == Edits(m[..i]);
  }

  /** The next edit of a replayable manifest adds nothing the builder already holds. */
  lemma NextIsFresh(m: Manifest, i: nat, b: VersionBuilder)
    requires Replayable(m) && i < |m| && b.Valid() && b.Accumulated() == Accumulate(Edits(m[..i]))
    ensures b.Fresh(m[i].edit)
  {
    OneMoreRecord(m, i);
    var e, c := m[i].edit, b.Accumulated();
    forall l, f, g | 0 <= l < NUM_LEVELS && (l, f) in e.added && g in b.added[l]
      ensures f.number != g.number
    {
      assert Edits(m)[i] == e;
      assert (l, f).0 == l && f in AddedAt(e, l) && g in NoTables()[l] + c.added[l];
      assert f.number in Numbers(AddedAt(e, l)) && g.number in Numbers(NoTables()[l] + c.added[l]);
    }
  }

  /** VersionSet::Recover: all records go into one builder, which is saved once. None stands for Corruption. */
  method Recover(m: Manifest) returns (r: Option<(Levels, Counters)>)
    requires Replayable(m)
    ensures r.Some? <==> Complete(m)
    ensures r.Some? ==> r.value.1 == CountersOf(m)
    ensures r.Some? ==> Ordered(r.value.0) && Tables(r.value.0) == SavedInTurn(NoTables(), Edits(m))
  {
    hide Replayable, EditOk, AddedOnce, Accumulate, WithEdit, Saved, SavedInTurn, Tables, InOrder, CountersOf, Edits, NoLevels;
    ReplayStarts(m);
    var haveNextFile, haveLogNumber, haveLastSequence := false, false, false;
    var nextFile, lastSequence, logNumber := 0, 0, 0;
    var builder := new VersionBuilder(NoLevels());
    for i := 0 to |m|
      invariant fresh(builder) && builder.Valid() && builder.base == NoLevels()
      invariant builder.Accumulated() == Accumulate(Edits(m[..i]))
      invariant Counters(logNumber, lastSequence, nextFile) == CountersOf(m[..i])
      invariant haveNextFile <==> exists j :: 0 <= j < i && m[j].nextFile.Some?
      invariant haveLogNumber <==> exists j :: 0 <= j < i && m[j].logNumber.Some?
      invariant haveLastSequence <==> exists j :: 0 <= j < i && m[j].lastSequence.Some?
    {
      var record := m[i];
      ReplayContinues(m, i, builder);
      builder.Apply(record.edit);
      if record.logNumber.Some? {
        logNumber, haveLogNumber := record.logNumber.value, true;
      }
      if record.nextFile.Some? {
        nextFile, haveNextFile := record.nextFile.value, true;
      }
      if record.lastSequence.Some? {
        lastSequence, haveLastSequence := record.lastSequence.value, true;
      }
    }
    assert m[..|m|] == m;
    if !haveNextFile || !haveLogNumber || !haveLastSequence {
      return None;
    }
    NoLevelsHold();
    var v := builder.SaveTo();
    SavedIsReplay(m, v);
    r := Some((v, Counters(logNumber, lastSequence, nextFile)));
  }

  lemma ReplayStarts(m: Manifest)
    ensures |NoLevels()| == NUM_LEVELS && Accumulate(Edits(m[..0])) == NoChanges() && CountersOf(m[..0]) == Counters(0, 0, 0)
  {
  }

  lemma ReplayContinues(m: Manifest, i: nat, b: VersionBuilder)
    requires Replayable(m) && i < |m| && b.Valid() && b.Accumulated() == Accumulate(Edits(m[..i]))
    ensures EditOk(m[i].edit) && b.Fresh(m[i].edit)
    ensures Accumulate(Edits(m[..i + 1])) == WithEdit(Accumulate(Edits(m[..i])), m[i].edit)
    ensures var before := CountersOf(m[..i]);
            CountersOf(m[..i + 1]) == Counters(Set(before.logNumber, m[i].logNumber), Set(before.lastSequence, m[i].lastSequence),
                                               Set(before.nextFile, m[i].nextFile))
  {
    NextIsFresh(m, i, b);
    OneMoreRecord(m, i);
  }

  lemma SavedIsReplay(m: Manifest, v: Levels)
    requires Replayable(m) && Tables(v) == Saved(Tables(NoLevels()), Accumulate(Edits(m)))
    ensures Tables(v) == SavedInTurn(NoTables(), Edits(m))
  {
    NoLevelsHold();
    ReplayRebuildsVersion(NoTables(), Edits(m));
  }

  /** Two versions in order that hold the same tables are the same. */
  lemma SameTablesSameVersion(v: Levels, v': Levels)
    requires Ordered(v) && Ordered(v') && Tables(v) == Tables(v')
    ensures v == v'
  {
    forall l | 0 <= l < NUM_LEVELS
      ensures v[l] == v'[l]
    {
      assert forall f :: f in v[l] <==> f in Tables(v)[l];
      assert forall f :: f in v'[l] <==> f in Tables(v')[l];
      SameOrder(v[l], v'[l]);
    }
  }

  /** The versions LogAndApply installed one after the other, from an empty one on. */
  ghost predicate Installed(versions: seq<Levels>, m: Manifest)
  {
    && |versions| == |m| + 1 && versions[0] == NoLevels()
    && (forall i :: 0 <= i < |versions| ==> Ordered(versions[i]))
    && (forall i :: 0 <= i < |m| ==> Tables(versions[i + 1]) == Saved(Tables(versions[i]), WithEdit(NoChanges(), m[i].edit)))
  }

  lemma {:induction false} InstalledIsSaved(versions: seq<Levels>, m: Manifest, n: nat)
    requires Installed(versions, m) && n <= |m|
    ensures Tables(versions[n]) == SavedInTurn(NoTables(), Edits(m[..n]))
  {
    if n == 0 {
      NoLevelsHold();
    } else {
      InstalledIsSaved(versions, m, n - 1);
      OneMoreRecord(m, n - 1);
      assert Edits(m[..n])[..n - 1] == Edits(m[..n - 1]);
    }
  }

  /** What Recover rebuilds is the very version that was installed last. */
  lemma ReplayIsInstalled(versions: seq<Levels>, m: Manifest, v: Levels)
    requires Installed(versions, m) && Ordered(v) && Tables(v) == SavedInTurn(NoTables(), Edits(m))
    ensures v == versions[|m|]
  {
    assert m[..|m|] == m;
    InstalledIsSaved(versions, m, |m|);
    SameTablesSameVersion(v, versions[|m|]);
  }

  // ------------------------------------------------------------------ what every record keeps

  /** The tables added to level `l` by any record. */
  ghost function EverAdded(m: Manifest, l: nat): set<File>
    requires l < NUM_LEVELS
  {
    Accumulate(Edits(m)).added[l]
  }

  ghost predicate Below(m: Manifest, bound: nat)
  {
    forall l, f :: 0 <= l < NUM_LEVELS && f in EverAdded(m, l) ==> f.number < bound
  }

  /** Replaying the manifest gives `v`, and tables only sink. */
  ghost predicate Rebuilds(m: Manifest, v: Levels)
  {
    Ordered(v) && Replayable(m) && SavedInTurn(NoTables(), Edits(m)) == Tables(v) && Sunk(m, v)
  }

  /** A table of `v` has never been added further down. */
  ghost predicate Sunk(m: Manifest, v: Levels)
    requires |v| == NUM_LEVELS
  {
    forall l, f, k, g :: 0 <= l < NUM_LEVELS && f in v[l] && 0 <= k < NUM_LEVELS && g in EverAdded(m, k) && g.number == f.number ==> k <= l
  }

  /** The manifest of a database whose current version is `v`. */
  ghost predicate Describes(m: Manifest, v: Levels)
  {
    Rebuilds(m, v) && Complete(m) && Below(m, CountersOf(m).nextFile)
  }

  /** The tables an edit adds have new numbers, or come from the level above and are deleted there. */
  ghost predicate NewOrSinking(e: Edit, v: Levels, bound: nat)
  {
    && |v| == NUM_LEVELS
    && (forall a, b :: a in e.added && b in e.added && a.1.number == b.1.number ==> a == b)
    && (forall l: nat, f :: (l, f) in e.added ==>
          bound <= f.number || (0 < l <= NUM_LEVELS && f in v[l - 1] && (l - 1, f.number) in e.deleted))
  }

  lemma ExtendedManifest(m: Manifest, record: Record)
    requires EditOk(record.edit)
    ensures Edits(m + [record]) == Edits(m) + [record.edit]
    ensures CountersOf(m + [record]).nextFile == Set(CountersOf(m).nextFile, record.nextFile)
    ensures CountersOf(m + [record]).logNumber == Set(CountersOf(m).logNumber, record.logNumber)
    ensures CountersOf(m + [record]).lastSequence == Set(CountersOf(m).lastSequence, record.lastSequence)
    ensures forall l :: 0 <= l < NUM_LEVELS ==> EverAdded(m + [record], l) == EverAdded(m, l) + AddedAt(record.edit, l)
    ensures SavedInTurn(NoTables(), Edits(m + [record])) == Saved(SavedInTurn(NoTables(), Edits(m)), WithEdit(NoChanges(), record.edit))
  {
    var m' := m + [record];
    assert m'[..|m|] == m;
    assert Edits(m')[..|m|] == Edits(m);
  }

  lemma StillReplayable(m: Manifest, record: Record)
    requires Replayable(m) && EditOk(record.edit)
    requires forall l: nat, f, g :: l < NUM_LEVELS && (l, f) in record.edit.added && g in EverAdded(m, l) ==> f.number != g.number
    ensures Replayable(m + [record])
  {
    var m' := m + [record];
    forall i, l | 0 <= i < |m'| && 0 <= l < NUM_LEVELS
      ensures Numbers(AddedAt(Edits(m')[i], l)) !! Numbers(NoTables()[l] + Accumulate(Edits(m')[..i]).added[l])
    {
      assert Edits(m')[..i] == Edits(m)[..i];
      if i < |m| {
        assert Edits(m')[i] == Edits(m)[i];
      } else {
        assert Edits(m)[..i] == Edits(m);
        forall n | n in Numbers(AddedAt(record.edit, l))
          ensures n !in Numbers(NoTables()[l] + EverAdded(m, l))
        {
          var f :| f in AddedAt(record.edit, l) && f.number == n;
          assert (l, f) in record.edit.added;
        }
      }
    }
  }

  /** The tables of a rebuilt version were all added by some record. */
  lemma RebuiltWasAdded(m: Manifest, v: Levels, l: nat, f: File)
    requires Rebuilds(m, v) && l < NUM_LEVELS && f in v[l]
    ensures f in EverAdded(m, l)
  {
    ReplayRebuildsVersion(NoTables(), Edits(m));
    assert f in Tables(v)[l];
  }

  /** An edit of new or sinking tables never meets a number it would have to avoid. */
  lemma NewOrSinkingIsFresh(m: Manifest, v: Levels, e: Edit, bound: nat)
    requires Rebuilds(m, v) && Below(m, bound) && NewOrSinking(e, v, bound)
    ensures forall l: nat, f, g :: l < NUM_LEVELS && (l, f) in e.added && g in EverAdded(m, l) ==> f.number != g.number
    ensures forall l: nat, f, g :: l < NUM_LEVELS && (l, f) in e.added && g in v[l] ==> f.number != g.number
  {
    hide Replayable, SavedInTurn, EverAdded;
    forall l: nat, f, g | l < NUM_LEVELS && (l, f) in e.added && g in v[l]
      ensures g in EverAdded(m, l)
    {
      RebuiltWasAdded(m, v, l, g);
    }
  }

  lemma StillSunk(m: Manifest, v: Levels, v': Levels, e: Edit, bound: nat, l: nat, f: File, k: nat, g: File)
    requires Rebuilds(m, v) && Below(m, bound) && UniqueNumbers(v) && NewOrSinking(e, v, bound) && Edited(v, v', e)
    requires l < NUM_LEVELS && f in v'[l] && k < NUM_LEVELS && g.number == f.number
    requires g in EverAdded(m, k) || (k, g) in e.added
    ensures k <= l
  {
    hide Replayable, SavedInTurn, EverAdded, Ordered;
    if 0 < k && g in v[k - 1] {
      assert In(v, k - 1, g);
    }
    if (l, f) !in e.added {
      assert In(v, l, f) && (l, f.number) !in e.deleted;
      RebuiltWasAdded(m, v, l, f);
    }
  }

  /** What an edit leads to is what saving it over the version gives. */
  lemma EditedIsSaved(v: Levels, v': Levels, e: Edit)
    requires Edited(v, v', e) && EditOk(e)
    requires forall l: nat, f, g :: l < NUM_LEVELS && (l, f) in e.added && g in v[l] ==> f.number != g.number
    ensures Tables(v') == Saved(Tables(v), WithEdit(NoChanges(), e))
  {
    var saved := Saved(Tables(v), WithEdit(NoChanges(), e));
    forall l | 0 <= l < NUM_LEVELS
      ensures Tables(v')[l] == saved[l]
    {
      forall f
        ensures f in v'[l] <==> f in saved[l]
      {
        AfterEdit(v[l], e, l, f);
        assert f in AddedAt(e, l) <==> (l, f) in e.added by {
          if (l, f) in e.added { assert (l, f).0 == l; }
        }
      }
    }
  }

  /** Every record LogAndApply writes keeps the manifest in step with the version. */
  lemma RecordKeeps(m: Manifest, record: Record, v: Levels, v': Levels, bound: nat)
    requires Rebuilds(m, v) && Below(m, bound) && UniqueNumbers(v)
    requires EditOk(record.edit) && NewOrSinking(record.edit, v, bound) && Edited(v, v', record.edit)
    requires record.logNumber.Some? && record.lastSequence.Some? && record.nextFile.Some? && bound <= record.nextFile.value
    requires forall l: nat, f :: (l, f) in record.edit.added ==> f.number < record.nextFile.value
    ensures Describes(m + [record], v')
  {
    hide Replayable, Saved, SavedInTurn, EditOk, EverAdded, Edited, UniqueNumbers, NewOrSinking;
    var e, m' := record.edit, m + [record];
    NewOrSinkingIsFresh(m, v, e, bound);
    StillReplayable(m, record);
    EditedIsSaved(v, v', e);
    ExtendedManifest(m, record);
    EditedIsOrdered(v, v', e);
    assert m'[|m|] == record;
    forall l, f | 0 <= l < NUM_LEVELS && f in EverAdded(m', l)
      ensures f.number < CountersOf(m').nextFile
    {
      if f !in EverAdded(m, l) { assert (l, f) in e.added; }
    }
    forall l, f, k, g | 0 <= l < NUM_LEVELS && f in v'[l] && 0 <= k < NUM_LEVELS && g in EverAdded(m', k) && g.number == f.number
      ensures k <= l
    {
      if g !in EverAdded(m, k) { assert (k, g) in e.added; }
      StillSunk(m, v, v', e, bound, l, f, k, g);
    }
  }

  lemma EditedIsOrdered(v: Levels, v': Levels, e: Edit)
    requires Edited(v, v', e)
    ensures Ordered(v')
  {
  }

  // ------------------------------------------------------------------ a new manifest

  /** WriteSnapshot: one record that adds every table of the version. */
  function AddedBelow(v: Levels, l: nat): seq<(nat, File)>
    requires l <= |v|
  {
    if l == 0 then [] else AddedBelow(v, l - 1) + seq(|v[l - 1]|, i requires 0 <= i < |v[l - 1]| => (l - 1, v[l - 1][i]))
  }

  function Snapshot(v: Levels): Record
  {
    Record(Edit({}, AddedBelow(v, |v|)), None, None, None)
  }

  method WriteSnapshot(v: Levels) returns (record: Record)
    ensures record == Snapshot(v)
  {
    var added := [];
    for level := 0 to |v|
      invariant added == AddedBelow(v, level)
    {
      for i := 0 to |v[level]|
        invariant added == AddedBelow(v, level) + seq(i, j requires 0 <= j < i => (level, v[level][j]))
      {
        added := added + [(level, v[level][i])];
      }
    }
    record := Record(Edit({}, added), None, None, None);
  }

  lemma {:induction false} AddedBelowHas(v: Levels, l: nat, k: nat, f: File)
    requires l <= |v|
    ensures (k, f) in AddedBelow(v, l) <==> k < l && f in v[k]
  {
    if 0 < l {
      AddedBelowHas(v, l - 1, k, f);
      var level := l - 1;
      var last := seq(|v[level]|, i requires 0 <= i < |v[level]| => (level, v[level][i]));
      if k == level && f in v[level] {
        var i :| 0 <= i < |v[level]| && v[level][i] == f;
        assert last[i] == (k, f);
      }
    }
  }

  lemma SnapshotAdds(v: Levels)
    requires |v| == NUM_LEVELS
    ensures forall l :: 0 <= l < NUM_LEVELS ==> AddedAt(Snapshot(v).edit, l) == Tables(v)[l]
    ensures forall l: nat, f :: (l, f) in Snapshot(v).edit.added <==> l < NUM_LEVELS && f in v[l]
  {
    forall l: nat, f
      ensures (l, f) in Snapshot(v).edit.added <==> l < NUM_LEVELS && f in v[l]
    {
      AddedBelowHas(v, |v|, l, f);
    }
    forall l, f | 0 <= l < NUM_LEVELS
      ensures f in AddedAt(Snapshot(v).edit, l) <==> f in Tables(v)[l]
    {
      if f in v[l] { assert (l, f).0 == l; }
    }
  }

  /** The first record of a new manifest describes the version it was made from. */
  lemma SnapshotRebuilds(v: Levels, bound: nat)
    requires Ordered(v) && UniqueNumbers(v) && forall l: nat, f :: In(v, l, f) ==> f.number < bound
    ensures Rebuilds([Snapshot(v)], v) && Below([Snapshot(v)], bound)
  {
    var record := Snapshot(v);
    SnapshotAdds(v);
    forall a, b | a in record.edit.added && b in record.edit.added && a.0 == b.0 && a.1.number == b.1.number
      ensures a == b
    {
      assert In(v, a.0, a.1) && In(v, b.0, b.1);
    }
    assert [] + [record] == [record];
    StillReplayable([], record);
    ExtendedManifest([], record);
    var saved := Saved(NoTables(), WithEdit(NoChanges(), record.edit));
    forall l | 0 <= l < NUM_LEVELS
      ensures saved[l] == Tables(v)[l] == EverAdded([record], l)
    {
    }
    forall l, f | 0 <= l < NUM_LEVELS && f in EverAdded([record], l)
      ensures f.number < bound
    {
      assert In(v, l, f);
    }
    forall l, f, k, g | 0 <= l < NUM_LEVELS && f in v[l] && 0 <= k < NUM_LEVELS && g in EverAdded([record], k) && g.number == f.number
      ensures k <= l
    {
      assert In(v, l, f) && In(v, k, g);
    }
  }

  /** A new manifest: the snapshot of a recovered version and the edit of the recovery. */
  function NewManifest(v: Levels, edit: Edit, logNumber: nat, lastSequence: nat, nextFile: nat): Manifest
  {
    [Snapshot(v), Record(edit, Some(logNumber), Some(lastSequence), Some(nextFile))]
  }

  lemma NewManifestDescribes(v: Levels, v': Levels, edit: Edit, logNumber: nat, lastSequence: nat, nextFile: nat, bound: nat)
    requires Ordered(v) && UniqueNumbers(v) && (forall l: nat, f :: In(v, l, f) ==> f.number < bound)
    requires EditOk(edit) && NewOrSinking(edit, v, bound) && Edited(v, v', edit) && bound <= nextFile
    requires forall l: nat, f :: (l, f) in edit.added ==> f.number < nextFile
    ensures var m := NewManifest(v, edit, logNumber, lastSequence, nextFile);
            Describes(m, v') && CountersOf(m) == Counters(logNumber, lastSequence, nextFile)
  {
    hide EditOk, NewOrSinking, Edited, UniqueNumbers, Ordered, Snapshot;
    var record := Record(edit, Some(logNumber), Some(lastSequence), Some(nextFile));
    SnapshotRebuilds(v, bound);
    RecordKeeps([Snapshot(v)], record, v, v', bound);
    assert [Snapshot(v)] + [record] == NewManifest(v, edit, logNumber, lastSequence, nextFile);
    ExtendedManifest([Snapshot(v)], record);
  }

  /** One more record of a manifest in use. */
  lemma MoreDescribes(m: Manifest, v: Levels, v': Levels, edit: Edit, logNumber: nat, lastSequence: nat, nextFile: nat)
    requires Describes(m, v) && UniqueNumbers(v) && EditOk(edit) && Edited(v, v', edit)
    requires NewOrSinking(edit, v, CountersOf(m).nextFile) && CountersOf(m).nextFile <= nextFile
    requires forall l: nat, f :: (l, f) in edit.added ==> f.number < nextFile
    ensures var m' := m + [Record(edit, Some(logNumber), Some(lastSequence), Some(nextFile))];
            Describes(m', v') && CountersOf(m') == Counters(logNumber, lastSequence, nextFile)
  {
    hide EditOk, NewOrSinking, Edited, UniqueNumbers, Rebuilds;
    var record := Record(edit, Some(logNumber), Some(lastSequence), Some(nextFile));
    RecordKeeps(m, record, v, v', CountersOf(m).nextFile);
    ExtendedManifest(m, record);
  }

  /** Every table of a described version has a number the manifest accounts for. */
  lemma NumbersRecorded(m: Manifest, v: Levels)
    requires Describes(m, v)
    ensures Ordered(v) && forall l: nat, f :: In(v, l, f) ==> f.number < CountersOf(m).nextFile
  {
    forall l: nat, f | In(v, l, f)
      ensures f.number < CountersOf(m).nextFile
    {
      RebuiltWasAdded(m, v, l, f);
    }
  }

  /** What Recover rebuilds is the version the manifest describes. */
  lemma RebuiltIsCurrent(m: Manifest, v: Levels, recovered: Levels)
    requires Describes(m, v) && Ordered(recovered) && Tables(recovered) == Saved(NoTables(), Accumulate(Edits(m)))
    ensures recovered == v
  {
    ReplayRebuildsVersion(NoTables(), Edits(m));
    SameTablesSameVersion(recovered, v);
  }
}
