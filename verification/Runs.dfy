/** What the engine promises over whole runs. */
module Runs {
  import opened Bytes
  import opened InternalKeys
  import opened Version
  import opened Compaction
  import opened Installing
  import opened History
  import opened VersionReads
  import opened Builder
  import opened Manifests
  import opened Engine

  /** DBImpl::Get: the memtable, then the immutable memtable, then the tables. */
  ghost predicate GetAnswers(mem: seq<Entry>, imm: Option<seq<Entry>>, version: Levels, key: Slice, snapshot: nat, r: Option<Entry>)
  {
    var inMem := Find(mem, key, snapshot);
    var inImm := if imm.Some? then Find(imm.value, key, snapshot) else None;
    if inMem.Some? then r == inMem
    else if inImm.Some? then r == inImm
    else Answer(version, key, snapshot, r)
  }

  lemma SlicesAfter(h: seq<Entry>, a: nat, b: nat, c: nat)
    requires a <= b <= c <= |h| && Numbered(h)
    ensures After(Entries(h[b..c]), Entries(h[a..b]))
  {
    forall e, x | e in Entries(h[b..c]) && x in Entries(h[a..b])
      ensures e.seqno > x.seqno
    {
      var i :| 0 <= i < c - b && h[b..c][i] == e;
      var j :| 0 <= j < b - a && h[a..b][j] == x;
      assert h[b + i] == e && h[a + j] == x;
    }
  }

  lemma SlicesUnion(h: seq<Entry>, a: nat, b: nat, c: nat)
    requires a <= b <= c <= |h|
    ensures Entries(h[a..c]) == Entries(h[b..c]) + Entries(h[a..b])
  {
    assert h[a..c] == h[a..b] + h[b..c];
  }

  /** A memtable in front of an older part that already reads right. */
  lemma InFront(run: seq<Entry>, newer: set<Entry>, older: set<Entry>, stored: set<Entry>, key: Slice, snapshot: nat, r: Option<Entry>, whole: Option<Entry>)
    requires Sorted(run) && Entries(run) == newer && After(newer, older)
    requires Find(run, key, snapshot).None? ==>
               forall w :: Sees(older, key, snapshot, w) ==> Outcome(r) == Outcome(w)
    requires Find(run, key, snapshot).Some? ==> r == Find(run, key, snapshot)
    requires Distinct(newer + older) && Sees(newer + older, key, snapshot, whole)
    ensures Outcome(r) == Outcome(whole)
  {
    FindIsNewest(run, key, snapshot);
    var w := SomeAnswer(older, key, snapshot);
    Layered(newer, older, key, snapshot, Find(run, key, snapshot), w);
    SameAnswer(newer + older, key, snapshot, whole, if Find(run, key, snapshot).Some? then Find(run, key, snapshot) else w);
  }

  /** In any state of the invariant, Get returns what the map of writes says. */
  lemma GetIsRight(s: Db, key: Slice, snapshot: nat, r: Option<Entry>)
    requires Inv(s) && s.floor <= snapshot
    requires GetAnswers(s.mem, s.imm, s.version, key, snapshot, r)
    ensures Outcome(r) == Read(s.history, key, snapshot)
  {
    var h := s.history;
    assert Numbered(h) by {
      forall i | 0 <= i < |h| ensures h[i].seqno == i + 1 { assert (h + s.pending)[i] == h[i]; }
    }
    var n := |h|;
    assert h[s.sealed..] == h[s.sealed..n] && h[..s.flushed] == h[0..s.flushed] && h[0..n] == h;
    SlicesAfter(h, 0, s.flushed, s.sealed);
    SlicesAfter(h, 0, s.sealed, n);
    SlicesUnion(h, 0, s.flushed, s.sealed);
    SlicesUnion(h, 0, s.sealed, n);
    DistinctHistory(h);
    var tables, upToImm := Entries(h[0..s.flushed]), Entries(h[0..s.sealed]);
    var whole := SomeAnswer(Entries(h), key, snapshot);
    if Find(s.mem, key, snapshot).None? {
      forall w | Sees(upToImm, key, snapshot, w)
        ensures Outcome(r) == Outcome(w)
      {
        BelowMem(s, key, snapshot, r, w);
      }
    }
    InFront(s.mem, Entries(h[s.sealed..n]), upToImm, Stored(s.version), key, snapshot, r, whole);
    SeesHistory(h, key, snapshot, whole);
  }

  lemma BelowMem(s: Db, key: Slice, snapshot: nat, r: Option<Entry>, w: Option<Entry>)
    requires Inv(s) && s.floor <= snapshot
    requires Find(s.mem, key, snapshot).None? && GetAnswers(s.mem, s.imm, s.version, key, snapshot, r)
    requires Sees(Entries(s.history[0..s.sealed]), key, snapshot, w)
    ensures Outcome(r) == Outcome(w)
  {
    var h := s.history;
    assert Numbered(h) by {
      forall i | 0 <= i < |h| ensures h[i].seqno == i + 1 { assert (h + s.pending)[i] == h[i]; }
    }
    assert h[..s.flushed] == h[0..s.flushed];
    SlicesAfter(h, 0, s.flushed, s.sealed);
    SlicesUnion(h, 0, s.flushed, s.sealed);
    var tables, middle := Entries(h[0..s.flushed]), Entries(h[s.flushed..s.sealed]);
    DistinctHistory(h);
    assert middle + tables <= Entries(h);
    if s.imm.None? || Find(s.imm.value, key, snapshot).None? {
      AnswerIsNewest(s.version, s.floor, key, snapshot, r);
    }
    if s.imm.Some? {
      InFront(s.imm.value, middle, tables, Stored(s.version), key, snapshot, r, w);
    } else {
      assert middle == {};
      assert middle + tables == tables;
    }
  }

  /** A run: any number of steps from a database just created. */
  ghost predicate Run(states: seq<Db>)
  {
    && states != [] && Init(states[0])
    && forall i :: 0 <= i < |states| - 1 ==> Next(states[i], states[i + 1])
  }

  lemma {:induction false} RunInv(states: seq<Db>, i: nat)
    requires Run(states) && i < |states|
    ensures Inv(states[i])
  {
    if i == 0 {
      InitInv(states[0]);
    } else {
      RunInv(states, i - 1);
      NextKeeps(states[i - 1], states[i]);
    }
  }

  /** Reads are promised at the last sequence number and at every snapshot still held. */
  ghost predicate Readable(s: Db, snapshot: nat)
  {
    snapshot == s.lastSequence || snapshot in s.snapshots
  }

  /** In every run, in every state, every read returns what the map of writes says. */
  lemma EveryReadIsRight(states: seq<Db>, i: nat, key: Slice, snapshot: nat, r: Option<Entry>)
    requires Run(states) && i < |states| && Readable(states[i], snapshot)
    requires GetAnswers(states[i].mem, states[i].imm, states[i].version, key, snapshot, r)
    ensures Outcome(r) == Read(states[i].history, key, snapshot)
  {
    RunInv(states, i);
    GetIsRight(states[i], key, snapshot, r);
  }

  /** No step, a crash included, forgets or reorders a write. */
  lemma HistoryGrows(s: Db, s': Db)
    requires Next(s, s')
    ensures s.history <= s'.history
  {
  }

  lemma {:induction false} HistoryGrowsInRun(states: seq<Db>, i: nat, j: nat)
    requires Run(states) && i <= j < |states|
    ensures states[i].history <= states[j].history
  {
    hide Next, Init;
    if i < j {
      HistoryGrowsInRun(states, i, j - 1);
      HistoryGrows(states[j - 1], states[j]);
    }
  }

  /** A snapshot reads the same whenever it is read. */
  lemma SnapshotsAreStable(states: seq<Db>, i: nat, j: nat, key: Slice, snapshot: nat, r: Option<Entry>, r': Option<Entry>)
    requires Run(states) && i <= j < |states|
    requires Readable(states[i], snapshot) && Readable(states[j], snapshot)
    requires GetAnswers(states[i].mem, states[i].imm, states[i].version, key, snapshot, r)
    requires GetAnswers(states[j].mem, states[j].imm, states[j].version, key, snapshot, r')
    ensures Outcome(r) == Outcome(r')
  {
    hide Run, Inv, GetAnswers, Read;
    EveryReadIsRight(states, i, key, snapshot, r);
    EveryReadIsRight(states, j, key, snapshot, r');
    RunInv(states, i);
    HistoryGrowsInRun(states, i, j);
    ReadableIsCovered(states[i], snapshot);
    PrefixReads(states[i].history, states[j].history, key, snapshot);
  }

  /** After a crash of the process every acknowledged write is there, and an unacknowledged group wholly or not at all. */
  lemma CrashKeepsWrites(states: seq<Db>, i: nat, s': Db, recovered: Levels, numbers: seq<nat>, parts: seq<seq<Entry>>,
                         files: seq<File>, key: Slice, r: Option<Entry>)
    requires Run(states) && i < |states| && CrashAndRecover(states[i], s', recovered, numbers, parts, files)
    requires GetAnswers(s'.mem, s'.imm, s'.version, key, s'.lastSequence, r)
    ensures Outcome(r) == Read(states[i].history + states[i].pending, key, s'.lastSequence)
    ensures s'.lastSequence == |states[i].history| + |states[i].pending|
  {
    RunInv(states, i);
    RecoverKeeps(states[i], s', recovered, numbers, parts, files);
    GetIsRight(s', key, s'.lastSequence, r);
  }

  /** A reader that pinned its memtable is not disturbed by the entries added to it meanwhile. */
  lemma LaterWritesAreInvisible(run: seq<Entry>, more: seq<Entry>, key: Slice, snapshot: nat)
    requires Sorted(run) && Sorted(more) && Entries(run) <= Entries(more) && Distinct(Entries(more))
    requires forall x :: x in Entries(more) && x !in Entries(run) ==> x.seqno > snapshot
    ensures Find(more, key, snapshot) == Find(run, key, snapshot)
  {
    FindIsNewest(run, key, snapshot);
    FindIsNewest(more, key, snapshot);
    SameAnswer(Entries(more), key, snapshot, Find(more, key, snapshot), Find(run, key, snapshot));
  }

  /** `m` is what the memtable a reader pinned in `s` holds in the later state `s'`, as mem_ or as imm_. */
  ghost predicate PinnedMem(s: Db, s': Db, m: seq<Entry>)
  {
    (s'.sealed == s.sealed && m == s'.mem) || (s'.flushed == s.sealed < s'.sealed && s'.imm == Some(m))
  }

  /** A memtable is sealed with all that is in it. */
  lemma {:induction false} SealedWhole(states: seq<Db>, i: nat, j: nat)
    requires Run(states) && i <= j < |states|
    ensures states[j].sealed == states[i].sealed || |states[i].history| <= states[j].sealed
  {
    hide Inv, Next, Init;
    if i < j {
      SealedWhole(states, i, j - 1);
      HistoryGrowsInRun(states, i, j - 1);
      RunInv(states, j - 1);
      SealedStep(states[j - 1], states[j]);
    }
  }

  lemma SealedStep(s: Db, s': Db)
    requires Next(s, s')
    ensures s'.sealed == s.sealed || |s.history| <= s'.sealed
  {
  }

  /** A stretch of the history, and the same stretch grown. */
  lemma GrownSlice(h: seq<Entry>, h': seq<Entry>, from: nat, to: nat)
    requires h <= h' && Numbered(h') && from <= |h| <= to <= |h'|
    ensures Entries(h[from..]) <= Entries(h'[from..to])
    ensures forall x :: x in Entries(h'[from..to]) && x !in Entries(h[from..]) ==> x.seqno > |h|
  {
    assert forall i :: 0 <= i < |h| - from ==> h[from..][i] == h'[from..to][i];
    forall x | x in Entries(h'[from..to]) && x !in Entries(h[from..])
      ensures x.seqno > |h|
    {
      var i :| 0 <= i < to - from && h'[from..to][i] == x;
    }
  }

  lemma PinnedMemHolds(s: Db, s': Db, m: seq<Entry>)
    requires Inv(s) && Inv(s') && s.history <= s'.history && PinnedMem(s, s', m)
    requires s'.sealed == s.sealed || |s.history| <= s'.sealed
    ensures Sorted(m) && Distinct(Entries(m)) && Entries(s.mem) <= Entries(m)
    ensures forall x :: x in Entries(m) && x !in Entries(s.mem) ==> x.seqno > s.lastSequence
  {
    hide DiskInv, Faithful, RunningInv, SnapshotsInv, Sorted;
    var h := s'.history;
    forall i | 0 <= i < |h| ensures h[i].seqno == i + 1 { assert (h + s'.pending)[i] == h[i]; }
    DistinctHistory(h);
    var to := if s'.sealed == s.sealed && m == s'.mem then |h| else s'.sealed;
    assert h[s.sealed..|h|] == h[s.sealed..];
    assert Entries(m) == Entries(h[s.sealed..to]);
    GrownSlice(s.history, h, s.sealed, to);
  }

  /**
   * Get lets go of the mutex after it has pinned the memtables and the version. Whatever happens
   * until it has finished, it answers as of the moment it began.
   */
  lemma PinnedReadIsRight(states: seq<Db>, i: nat, j: nat, m: seq<Entry>, key: Slice, snapshot: nat, r: Option<Entry>)
    requires Run(states) && i <= j < |states| && Readable(states[i], snapshot)
    requires PinnedMem(states[i], states[j], m)
    requires GetAnswers(m, states[i].imm, states[i].version, key, snapshot, r)
    ensures Outcome(r) == Read(states[i].history, key, snapshot) == Read(states[j].history, key, snapshot)
  {
    hide Run, Inv, PinnedMem, Read;
    RunInv(states, i);
    RunInv(states, j);
    HistoryGrowsInRun(states, i, j);
    SealedWhole(states, i, j);
    PinnedMemHolds(states[i], states[j], m);
    ReadableIsCovered(states[i], snapshot);
    MemSorted(states[i]);
    LaterWritesAreInvisible(states[i].mem, m, key, snapshot);
    GetIsRight(states[i], key, snapshot, r);
    PrefixReads(states[i].history, states[j].history, key, snapshot);
  }

  lemma ReadableIsCovered(s: Db, snapshot: nat)
    requires Inv(s) && Readable(s, snapshot)
    ensures s.floor <= snapshot <= s.lastSequence == |s.history|
  {
    hide DiskInv, Faithful, RunningInv;
  }

  lemma MemSorted(s: Db)
    requires Inv(s)
    ensures Sorted(s.mem)
  {
    hide DiskInv, Faithful, RunningInv;
  }

  lemma PrefixReads(h: seq<Entry>, h': seq<Entry>, key: Slice, snapshot: nat)
    requires h <= h' && snapshot <= |h|
    ensures Read(h, key, snapshot) == Read(h', key, snapshot)
  {
    assert h[..snapshot] == h'[..snapshot];
  }
}
