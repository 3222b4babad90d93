/** DBImpl::Write: writers queue up, and the one at the front writes for a group (db/db_impl.cc). */
module GroupCommit {
  import opened Bytes
  import opened InternalKeys
  import opened Engine

  /** A waiting writer. No batch: it only forces a memtable switch. */
  datatype Writer = Writer(batch: Option<seq<Op>>, sync: bool, size: nat)

  function OpsOf(ws: seq<Writer>): seq<Op>
  {
    if ws == [] then [] else
      OpsOf(ws[..|ws| - 1]) + match ws[|ws| - 1].batch case None => [] case Some(ops) => ops
  }

  function Sizes(ws: seq<Writer>): nat
  {
    if ws == [] then 0 else
      Sizes(ws[..|ws| - 1]) + if ws[|ws| - 1].batch.Some? then ws[|ws| - 1].size else 0
  }

  function MaxSize(first: nat): nat
  {
    if first <= 0x2_0000 then first + 0x2_0000 else 0x10_0000
  }

  /** No sync writer rides with a leader that is not, and the group is as large as its size limit allows. */
  ghost predicate IsGroup(queue: seq<Writer>, n: nat)
  {
    && 1 <= n <= |queue| && queue[0].batch.Some?
    && (forall i :: 0 <= i < n && queue[i].sync ==> queue[0].sync)
    && (forall i :: 1 <= i < n && queue[i].batch.Some? ==> Sizes(queue[..i + 1]) <= MaxSize(queue[0].size))
    && (n < |queue| ==>
          || (queue[n].sync && !queue[0].sync)
          || (queue[n].batch.Some? && Sizes(queue[..n + 1]) > MaxSize(queue[0].size)))
  }

  lemma OneMore(ws: seq<Writer>, n: nat)
    requires n < |ws|
    ensures Sizes(ws[..n + 1]) == Sizes(ws[..n]) + if ws[n].batch.Some? then ws[n].size else 0
    ensures OpsOf(ws[..n + 1]) == OpsOf(ws[..n]) + if ws[n].batch.Some? then ws[n].batch.value else []
    ensures n == 0 ==> Sizes(ws[..n]) == 0 && OpsOf(ws[..n]) == []
  {
    assert ws[..n + 1][..n] == ws[..n];
  }

  method BuildBatchGroup(queue: seq<Writer>) returns (n: nat, ops: seq<Op>)
    requires queue != [] && queue[0].batch.Some?
    ensures IsGroup(queue, n) && ops == OpsOf(queue[..n])
  {
    hide OpsOf, Sizes;
    var first := queue[0];
    var size := first.size;
    var maxSize := 0x10_0000;
    if size <= 0x2_0000 { maxSize := size + 0x2_0000; }
    ops := first.batch.value;
    n := 1;
    OneMore(queue, 0);
    while n < |queue|
      invariant 1 <= n <= |queue| && ops == OpsOf(queue[..n]) && size == Sizes(queue[..n])
      invariant forall i :: 0 <= i < n && queue[i].sync ==> first.sync
      invariant forall i :: 1 <= i < n && queue[i].batch.Some? ==> Sizes(queue[..i + 1]) <= maxSize
    {
      var w := queue[n];
      OneMore(queue, n);
      if w.sync && !first.sync { break; }
      if w.batch.Some? {
        size := size + w.size;
        if size > maxSize { break; }
        ops := ops + w.batch.value;
      }
      n := n + 1;
    }
  }

  // ------------------------------------------------------------------ the protocol

  /** A log record, and which writers it is for. */
  datatype Record = Record(from: nat, to: nat, first: nat, ops: seq<Op>, synced: bool)

  /** What the writer at the front has done for its group of `n`. */
  datatype Phase = Idle | Grouped(n: nat) | Logged(n: nat) | Inserted(n: nat)

  /** All writers that ever arrived; those before `head` have returned. */
  datatype Commit = Commit(arrived: seq<Writer>, head: nat, phase: Phase, log: seq<Record>, mem: seq<Entry>, lastSequence: nat)

  ghost predicate Init(s: Commit)
  {
    s == Commit([], 0, Idle, [], [], 0)
  }

  /** Any thread, at any time the mutex is free. */
  ghost predicate Arrive(s: Commit, s': Commit, w: Writer)
  {
    s' == s.(arrived := s.arrived + [w])
  }

  ghost predicate Lead(s: Commit, s': Commit, n: nat)
  {
    s.phase.Idle? && s.head < |s.arrived| && IsGroup(s.arrived[s.head..], n) && s' == s.(phase := Grouped(n))
  }

  /** A writer without a batch returns alone. */
  ghost predicate LeadWithoutBatch(s: Commit, s': Commit)
  {
    s.phase.Idle? && s.head < |s.arrived| && s.arrived[s.head].batch.None? && s' == s.(head := s.head + 1)
  }

  /** log_->AddRecord, and Sync if the leader asks for it; the mutex is not held. */
  ghost predicate AddRecord(s: Commit, s': Commit)
  {
    && s.phase.Grouped? && s.head + s.phase.n <= |s.arrived| && s.head < |s.arrived|
    && var to := s.head + s.phase.n;
       s' == s.(phase := Logged(s.phase.n),
                log := s.log + [Record(s.head, to, s.lastSequence + 1, OpsOf(s.arrived[s.head..to]), s.arrived[s.head].sync)])
  }

  ghost predicate InsertIntoMem(s: Commit, s': Commit)
  {
    && s.phase.Logged? && s.log != []
    && var r := s.log[|s.log| - 1];
       s' == s.(phase := Inserted(s.phase.n), mem := s.mem + Numbering(r.ops, r.first))
  }

  /** SetLastSequence, and the group leaves the queue. */
  ghost predicate Publish(s: Commit, s': Commit)
  {
    && s.phase.Inserted? && s.log != []
    && s' == s.(phase := Idle, head := s.head + s.phase.n, lastSequence := s.lastSequence + |s.log[|s.log| - 1].ops|)
  }

  ghost predicate Next(s: Commit, s': Commit)
  {
    || (exists w :: Arrive(s, s', w))
    || (exists n :: Lead(s, s', n))
    || LeadWithoutBatch(s, s')
    || AddRecord(s, s')
    || InsertIntoMem(s, s')
    || Publish(s, s')
  }

  /** Writers whose batches are in the log, and in the memtable. */
  function LoggedUpTo(s: Commit): nat { if s.phase.Logged? || s.phase.Inserted? then s.head + s.phase.n else s.head }
  function InsertedUpTo(s: Commit): nat { if s.phase.Inserted? then s.head + s.phase.n else s.head }

  ghost predicate RecordOk(arrived: seq<Writer>, r: Record)
  {
    && r.from < r.to <= |arrived|
    && r.ops == OpsOf(arrived[r.from..r.to]) && r.first == |OpsOf(arrived[..r.from])| + 1
    && (forall i :: r.from <= i < r.to && arrived[i].sync ==> r.synced)
  }

  /** Every writer with a batch before `n` has its record. */
  ghost predicate Covered(arrived: seq<Writer>, log: seq<Record>, n: nat)
    requires n <= |arrived|
  {
    forall i :: 0 <= i < n && arrived[i].batch.Some? ==> exists k :: 0 <= k < |log| && log[k].from <= i < log[k].to
  }

  function LogOps(log: seq<Record>): seq<Op>
  {
    if log == [] then [] else LogOps(log[..|log| - 1]) + log[|log| - 1].ops
  }

  /** The first `m` records hold the batches of all writers up to the last one they are for. */
  ghost predicate PrefixOk(arrived: seq<Writer>, log: seq<Record>, m: nat)
    requires 0 < m <= |log|
  {
    && log[m - 1].to <= |arrived| && LogOps(log[..m]) == OpsOf(arrived[..log[m - 1].to])
    && forall k :: 0 <= k < m ==> log[k].to <= log[m - 1].to
  }

  ghost predicate Inv(s: Commit)
  {
    && s.head <= |s.arrived| && LoggedUpTo(s) <= |s.arrived|
    && (!s.phase.Idle? ==>
          && 1 <= s.phase.n && s.head + s.phase.n <= |s.arrived|
          && forall i :: s.head <= i < s.head + s.phase.n && s.arrived[i].sync ==> s.arrived[s.head].sync)
    && (s.phase.Logged? || s.phase.Inserted? ==>
          && s.log != [] && var r := s.log[|s.log| - 1];
                            r.from == s.head && r.to == s.head + s.phase.n)
    && s.lastSequence == |OpsOf(s.arrived[..s.head])|
    && (forall k :: 0 <= k < |s.log| ==> RecordOk(s.arrived, s.log[k]) && s.log[k].to <= LoggedUpTo(s))
    && (forall m :: 0 < m <= |s.log| ==> PrefixOk(s.arrived, s.log, m))
    && Covered(s.arrived, s.log, LoggedUpTo(s))
    && LogOps(s.log) == OpsOf(s.arrived[..LoggedUpTo(s)])
    && s.mem == Numbering(OpsOf(s.arrived[..InsertedUpTo(s)]), 1)
  }

  lemma {:induction false} OpsOfAppend(a: seq<Writer>, b: seq<Writer>)
    ensures OpsOf(a + b) == OpsOf(a) + OpsOf(b)
  {
    if b == [] {
      assert a + b == a;
    } else {
      var n := |b| - 1;
      assert (a + b)[..|a + b| - 1] == a + b[..n];
      OpsOfAppend(a, b[..n]);
    }
  }

  lemma OpsOfSplit(ws: seq<Writer>, i: nat, j: nat)
    requires i <= j <= |ws|
    ensures OpsOf(ws[..j]) == OpsOf(ws[..i]) + OpsOf(ws[i..j])
  {
    assert ws[..j] == ws[..i] + ws[i..j];
    OpsOfAppend(ws[..i], ws[i..j]);
  }

  lemma {:induction false} NumberingAppend(a: seq<Op>, b: seq<Op>, first: nat)
    ensures Numbering(a + b, first) == Numbering(a, first) + Numbering(b, first + |a|)
  {
    if b == [] {
      assert a + b == a;
    } else {
      var n := |b| - 1;
      assert (a + b)[..|a + b| - 1] == a + b[..n];
      NumberingAppend(a, b[..n], first);
    }
  }

  lemma InitHolds(s: Commit)
    requires Init(s)
    ensures Inv(s)
  {
  }

  lemma ArriveKeeps(s: Commit, s': Commit, w: Writer)
    requires Inv(s) && Arrive(s, s', w)
    ensures Inv(s')
  {
    hide OpsOf, Numbering, LogOps;
    assert forall n :: 0 <= n <= |s.arrived| ==> s'.arrived[..n] == s.arrived[..n];
    forall k | 0 <= k < |s.log|
      ensures RecordOk(s'.arrived, s.log[k])
    {
      var r := s.log[k];
      assert RecordOk(s.arrived, r);
      assert s'.arrived[r.from..r.to] == s.arrived[r.from..r.to];
    }
    forall m | 0 < m <= |s.log|
      ensures PrefixOk(s'.arrived, s.log, m)
    {
      assert PrefixOk(s.arrived, s.log, m);
    }
  }

  lemma LeadKeeps(s: Commit, s': Commit, n: nat)
    requires Inv(s) && Lead(s, s', n)
    ensures Inv(s')
  {
    hide OpsOf, Numbering, LogOps, Sizes, MaxSize;
    var queue := s.arrived[s.head..];
    forall i | s.head <= i < s.head + n && s.arrived[i].sync
      ensures s.arrived[s.head].sync
    {
      assert queue[i - s.head] == s.arrived[i];
    }
  }

  lemma AloneKeeps(s: Commit, s': Commit)
    requires Inv(s) && LeadWithoutBatch(s, s')
    ensures Inv(s')
  {
    hide OpsOf, Numbering, LogOps, RecordOk;
    OneMore(s.arrived, s.head);
    assert OpsOf(s.arrived[..s.head]) + [] == OpsOf(s.arrived[..s.head]);
  }

  lemma AddRecordKeeps(s: Commit, s': Commit)
    requires Inv(s) && AddRecord(s, s')
    ensures Inv(s')
  {
    hide OpsOf, Numbering, Covered, PrefixOk;
    var to := s.head + s.phase.n;
    var r := s'.log[|s.log|];
    OpsOfSplit(s.arrived, s.head, to);
    assert s'.log[..|s.log|] == s.log;
    CoveredAppend(s.arrived, s.log, r, s.head);
    PrefixesAppend(s.arrived, s.log, r);
  }

  lemma CoveredAppend(arrived: seq<Writer>, log: seq<Record>, r: Record, n: nat)
    requires r.from <= n <= r.to <= |arrived| && Covered(arrived, log, n)
    ensures Covered(arrived, log + [r], r.to)
  {
    var more := log + [r];
    forall i | 0 <= i < r.to && arrived[i].batch.Some?
      ensures exists k :: 0 <= k < |more| && more[k].from <= i < more[k].to
    {
      if i < n {
        var k :| 0 <= k < |log| && log[k].from <= i < log[k].to;
        assert more[k] == log[k];
      } else {
        assert more[|log|].from <= i < more[|log|].to;
      }
    }
  }

  lemma OneMoreLogged(log: seq<Record>, r: Record)
    ensures LogOps(log + [r]) == LogOps(log) + r.ops
  {
    assert (log + [r])[..|log|] == log;
  }

  lemma PrefixesAppend(arrived: seq<Writer>, log: seq<Record>, r: Record)
    requires r.to <= |arrived| && LogOps(log) + r.ops == OpsOf(arrived[..r.to])
    requires forall k :: 0 <= k < |log| ==> log[k].to <= r.to
    requires forall m :: 0 < m <= |log| ==> PrefixOk(arrived, log, m)
    ensures forall m :: 0 < m <= |log + [r]| ==> PrefixOk(arrived, log + [r], m)
  {
    hide OpsOf, LogOps;
    var more := log + [r];
    assert more[..|more|] == more;
    OneMoreLogged(log, r);
    forall m | 0 < m <= |log|
      ensures PrefixOk(arrived, more, m)
    {
      assert PrefixOk(arrived, log, m) && more[..m] == log[..m];
    }
  }

  lemma InsertKeeps(s: Commit, s': Commit)
    requires Inv(s) && InsertIntoMem(s, s')
    ensures Inv(s')
  {
    hide OpsOf, Numbering, LogOps;
    var r := s.log[|s.log| - 1];
    assert RecordOk(s.arrived, r);
    OpsOfSplit(s.arrived, r.from, r.to);
    NumberingAppend(OpsOf(s.arrived[..r.from]), r.ops, 1);
  }

  lemma PublishKeeps(s: Commit, s': Commit)
    requires Inv(s) && Publish(s, s')
    ensures Inv(s')
  {
    hide OpsOf, Numbering, LogOps;
    var r := s.log[|s.log| - 1];
    assert RecordOk(s.arrived, r);
    OpsOfSplit(s.arrived, r.from, r.to);
  }

  lemma NextHolds(s: Commit, s': Commit)
    requires Inv(s) && Next(s, s')
    ensures Inv(s')
  {
    hide Inv, Arrive, Lead, LeadWithoutBatch, AddRecord, InsertIntoMem, Publish;
    if w :| Arrive(s, s', w) { ArriveKeeps(s, s', w); }
    else if n :| Lead(s, s', n) { LeadKeeps(s, s', n); }
    else if LeadWithoutBatch(s, s') { AloneKeeps(s, s'); }
    else if AddRecord(s, s') { AddRecordKeeps(s, s'); }
    else if InsertIntoMem(s, s') { InsertKeeps(s, s'); }
    else if Publish(s, s') { PublishKeeps(s, s'); }
  }

  ghost predicate CommitRun(run: seq<Commit>)
  {
    run != [] && Init(run[0]) && forall i :: 0 <= i < |run| - 1 ==> Next(run[i], run[i + 1])
  }

  lemma {:induction false} CommitRunInv(run: seq<Commit>, n: nat)
    requires CommitRun(run) && n < |run|
    ensures Inv(run[n])
  {
    hide Next, Inv, Init;
    if n == 0 {
      InitHolds(run[0]);
    } else {
      CommitRunInv(run, n - 1);
      NextHolds(run[n - 1], run[n]);
    }
  }

  // ------------------------------------------------------------------ what it means

  /** In every run the log holds the batches of the writers served so far once each, in the order in which they came. */
  lemma LoggedOnceInOrder(run: seq<Commit>, n: nat)
    requires CommitRun(run) && n < |run|
    ensures LoggedUpTo(run[n]) <= |run[n].arrived| && LogOps(run[n].log) == OpsOf(run[n].arrived[..LoggedUpTo(run[n])])
    ensures run[n].head <= LoggedUpTo(run[n])
  {
    CommitRunInv(run, n);
  }

  /** A sync writer that has returned is in a record that was synced. */
  lemma SyncWritersAreSynced(run: seq<Commit>, n: nat, i: nat)
    requires CommitRun(run) && n < |run| && i < run[n].head <= |run[n].arrived|
    requires run[n].arrived[i].sync && run[n].arrived[i].batch.Some?
    ensures exists k :: 0 <= k < |run[n].log| && run[n].log[k].from <= i < run[n].log[k].to && run[n].log[k].synced
  {
    CommitRunInv(run, n);
    var s := run[n];
    var k :| 0 <= k < |s.log| && s.log[k].from <= i < s.log[k].to;
    assert RecordOk(s.arrived, s.log[k]);
  }

  /** The number of records up to the last one that was synced. */
  function SyncedPrefix(log: seq<Record>): (n: nat)
    ensures n <= |log|
    ensures forall k :: n <= k < |log| ==> !log[k].synced
  {
    if log == [] || log[|log| - 1].synced then |log| else SyncedPrefix(log[..|log| - 1])
  }

  /**
   * If the machine goes down and the log loses any part that was not synced, what is left is the
   * batches of the first writers, whole and in order, and every sync writer that has returned is among them.
   */
  lemma SyncedWritesSurvive(run: seq<Commit>, n: nat, i: nat, m: nat)
    requires CommitRun(run) && n < |run| && i < run[n].head <= |run[n].arrived|
    requires run[n].arrived[i].sync && run[n].arrived[i].batch.Some?
    requires SyncedPrefix(run[n].log) <= m <= |run[n].log|
    ensures exists c :: i < c <= |run[n].arrived| && LogOps(run[n].log[..m]) == OpsOf(run[n].arrived[..c])
  {
    hide CommitRun, OpsOf, LogOps, RecordOk, Covered;
    CommitRunInv(run, n);
    SyncWritersAreSynced(run, n, i);
    var s := run[n];
    var k :| 0 <= k < |s.log| && s.log[k].from <= i < s.log[k].to && s.log[k].synced;
    assert PrefixOk(s.arrived, s.log, m);
  }

  /**
   * A reader at LastSequence sees each batch whole or not at all: the operations of writer `i`
   * got consecutive sequence numbers, all at or below LastSequence if it has returned and all above
   * otherwise; a returned writer's entries are in the memtable.
   */
  lemma BatchesAreAtomic(run: seq<Commit>, n: nat, i: nat)
    requires CommitRun(run) && n < |run| && i < |run[n].arrived| && run[n].arrived[i].batch.Some?
    ensures var s := run[n];
            var ops, before := s.arrived[i].batch.value, |OpsOf(s.arrived[..i])|;
            && (i < s.head ==> before + |ops| <= s.lastSequence)
            && (i >= s.head ==> before >= s.lastSequence)
            && (i < InsertedUpTo(s) ==> before + |ops| <= |s.mem| && s.mem[before..before + |ops|] == Numbering(ops, before + 1))
  {
    hide CommitRun, OpsOf, Numbering, LogOps, RecordOk, Covered;
    CommitRunInv(run, n);
    var s := run[n];
    var ops, before := s.arrived[i].batch.value, OpsOf(s.arrived[..i]);
    OneMoreWriter(s.arrived, i);
    if i < s.head {
      OpsOfSplit(s.arrived, i + 1, s.head);
    } else {
      OpsOfSplit(s.arrived, s.head, i);
    }
    var m := InsertedUpTo(s);
    if i < m {
      OpsOfSplit(s.arrived, i + 1, m);
      var rest := OpsOf(s.arrived[i + 1..m]);
      NumberingAppend(before + ops, rest, 1);
      NumberingAppend(before, ops, 1);
    }
  }

  lemma OneMoreWriter(ws: seq<Writer>, i: nat)
    requires i < |ws| && ws[i].batch.Some?
    ensures OpsOf(ws[..i + 1]) == OpsOf(ws[..i]) + ws[i].batch.value
  {
    assert ws[..i + 1][..i] == ws[..i];
  }
}
