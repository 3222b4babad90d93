/** The threads inside DBImpl::Write: waiting, leading a group, and waking each other up (db/db_impl.cc). */
module WriterThreads {
  import opened Bytes
  import opened InternalKeys
  import Engine
  import opened GroupCommit

  /**
   * Where a thread is. `Waiting` is inside cv.Wait; `Testing` is about to test the loop condition.
   * A leader is past the loop, and gives up the mutex while it makes room and while it writes.
   */
  datatype Place = Waiting | Testing | MakingRoom | Writing(phase: Phase) | Returned

  /** `marked` and `led` only count: how often done was set, and whether the thread got past the loop as leader. */
  datatype Thread = Thread(writer: Writer, place: Place, done: bool, marked: nat, led: bool)

  /** Threads in the order in which they came; `queue` is writers_. */
  datatype Threads = Threads(all: seq<Thread>, queue: seq<nat>, log: seq<Record>, mem: seq<Entry>, lastSequence: nat)

  predicate Leads(t: Thread) { t.place.MakingRoom? || t.place.Writing? }

  // ------------------------------------------------------------------ steps

  ghost predicate Started(s: Threads)
  {
    s == Threads([], [], [], [], 0)
  }

  /** push_back, on the way to the first test. */
  ghost predicate Enter(s: Threads, s': Threads, w: Writer)
  {
    s' == s.(all := s.all + [Thread(w, Testing, false, 0, false)], queue := s.queue + [|s.all|])
  }

  /** One test of `!w.done && &w != writers_.front()`, and the return right behind it. */
  ghost predicate Test(s: Threads, s': Threads, i: nat)
  {
    && i < |s.all| && s.all[i].place.Testing?
    && var t := s.all[i];
       if !t.done && !(s.queue != [] && s.queue[0] == i) then s' == s.(all := s.all[i := t.(place := Waiting)])
       else if t.done then s' == s.(all := s.all[i := t.(place := Returned)])
       else s' == s.(all := s.all[i := t.(place := MakingRoom, led := true)])
  }

  /** cv.Wait may return without a signal. */
  ghost predicate WakeUp(s: Threads, s': Threads, i: nat)
  {
    i < |s.all| && s.all[i].place.Waiting? && s' == s.(all := s.all[i := s.all[i].(place := Testing)])
  }

  function WritersOf(all: seq<Thread>): (r: seq<Writer>)
    ensures |r| == |all| && forall i :: 0 <= i < |all| ==> r[i] == all[i].writer
  {
    seq(|all|, i requires 0 <= i < |all| => all[i].writer)
  }

  ghost predicate QueueOk(all: seq<Thread>, queue: seq<nat>)
  {
    forall k :: 0 <= k < |queue| ==> queue[k] < |all|
  }

  function Queued(all: seq<Thread>, queue: seq<nat>): seq<Writer>
    requires QueueOk(all, queue)
  {
    seq(|queue|, k requires 0 <= k < |queue| => all[queue[k]].writer)
  }

  /** There is room, the leader has a batch, and BuildBatchGroup takes `n` writers. */
  ghost predicate Build(s: Threads, s': Threads, i: nat, n: nat)
  {
    && i < |s.all| && s.all[i].place.MakingRoom? && QueueOk(s.all, s.queue) && IsGroup(Queued(s.all, s.queue), n)
    && s' == s.(all := s.all[i := s.all[i].(place := Writing(Grouped(n)))])
  }

  /** What the leader's group of `n` writes. */
  function GroupOps(s: Threads, n: nat): seq<Engine.Op>
    requires QueueOk(s.all, s.queue) && n <= |s.queue|
  {
    OpsOf(Queued(s.all, s.queue)[..n])
  }

  /** log_->AddRecord and Sync, without the mutex. */
  ghost predicate WriteLog(s: Threads, s': Threads, i: nat)
  {
    && i < |s.all| && s.all[i].place.Writing? && s.all[i].place.phase.Grouped? && QueueOk(s.all, s.queue)
    && var n := s.all[i].place.phase.n;
       && 1 <= n <= |s.queue|
       && s' == s.(all := s.all[i := s.all[i].(place := Writing(Logged(n)))],
                   log := s.log + [Record(s.queue[0], s.queue[n - 1] + 1, s.lastSequence + 1, GroupOps(s, n), s.all[i].writer.sync)])
  }

  /** InsertInto(updates, mem_), without the mutex. */
  ghost predicate WriteMem(s: Threads, s': Threads, i: nat)
  {
    && i < |s.all| && s.all[i].place.Writing? && s.all[i].place.phase.Logged? && s.log != []
    && var r := s.log[|s.log| - 1];
       s' == s.(all := s.all[i := s.all[i].(place := Writing(Inserted(s.all[i].place.phase.n)))], mem := s.mem + Engine.Numbering(r.ops, r.first))
  }

  function Signalled(t: Thread): Thread { if t.place.Waiting? then t.(place := Testing) else t }

  function MarkedDone(t: Thread): Thread { Signalled(t.(done := true, marked := t.marked + 1)) }

  /** All but the leader at `head` of a group of `n` are done, and who is now at the front is signalled. */
  function Released(all: seq<Thread>, head: nat, n: nat): (r: seq<Thread>)
    ensures |r| == |all|
  {
    seq(|all|, i requires 0 <= i < |all| =>
          if head < i < head + n then MarkedDone(all[i]) else if i == head + n then Signalled(all[i]) else all[i])
  }

  /** The writers still queued are the last ones that came. */
  ghost predicate Consecutive(all: seq<Thread>, queue: seq<nat>)
  {
    |queue| <= |all| && forall k :: 0 <= k < |queue| ==> queue[k] == |all| - |queue| + k
  }

  /** The loop that pops the group, and the signal to the new front. */
  method PopGroup(all: seq<Thread>, queue: seq<nat>, self: nat, last: nat) returns (all': seq<Thread>, queue': seq<nat>)
    requires Consecutive(all, queue) && queue != [] && queue[0] == self && self <= last < |all|
    ensures queue' == queue[last - self + 1..] && all' == Released(all, self, last - self + 1)
  {
    all', queue' := all, queue;
    while true
      invariant queue' <= queue[|queue| - |queue'|..] && queue' != []
      invariant self <= queue'[0] <= last && |all'| == |all|
      invariant forall i :: 0 <= i < |all| ==> all'[i] == if self < i < queue'[0] then MarkedDone(all[i]) else all[i]
      decreases |queue'|
    {
      var ready := queue'[0];
      queue' := queue'[1..];
      if ready != self {
        all' := all'[ready := MarkedDone(all'[ready])];
      }
      if ready == last { break; }
    }
    if queue' != [] {
      all' := all'[queue'[0] := Signalled(all'[queue'[0]])];
    }
  }

  /** SetLastSequence, the pop loop, the signal, and the return. */
  ghost predicate Leave(s: Threads, s': Threads, i: nat)
  {
    && i < |s.all| && s.all[i].place.Writing? && s.all[i].place.phase.Inserted? && s.log != []
    && var n := s.all[i].place.phase.n;
       && n <= |s.queue|
       && s' == s.(all := Released(s.all, i, n)[i := s.all[i].(place := Returned)], queue := s.queue[n..],
                   lastSequence := s.lastSequence + |s.log[|s.log| - 1].ops|)
  }

  /** A leader without a batch pops only itself. */
  ghost predicate LeaveAlone(s: Threads, s': Threads, i: nat)
  {
    && i < |s.all| && s.all[i].place.MakingRoom? && s.all[i].writer.batch.None? && s.queue != []
    && s' == s.(all := Released(s.all, i, 1)[i := s.all[i].(place := Returned)], queue := s.queue[1..])
  }

  ghost predicate ThreadStep(s: Threads, s': Threads)
  {
    || (exists w :: Enter(s, s', w))
    || (exists i :: Test(s, s', i))
    || (exists i :: WakeUp(s, s', i))
    || (exists i, n :: Build(s, s', i, n))
    || (exists i :: WriteLog(s, s', i))
    || (exists i :: WriteMem(s, s', i))
    || (exists i :: Leave(s, s', i))
    || (exists i :: LeaveAlone(s, s', i))
  }

  // ------------------------------------------------------------------ what they keep

  /** How many writers have left the queue. */
  function Head(s: Threads): int { |s.all| - |s.queue| }

  /** A thread that has left the queue led its group or was marked done, once, and will not wait for ever. */
  predicate Gone(t: Thread)
  {
    if t.led then t.place.Returned? && t.marked == 0 && !t.done
    else t.done && t.marked == 1 && (t.place.Testing? || t.place.Returned?)
  }

  /** A thread in the queue; only the front one may lead, and it is never asleep. */
  predicate Stands(t: Thread, front: bool)
  {
    && !t.done && t.marked == 0
    && (if t.led then front && Leads(t) else t.place.Testing? || (t.place.Waiting? && !front))
  }

  ghost predicate ThreadsInv(s: Threads)
  {
    && Consecutive(s.all, s.queue)
    && (forall i :: 0 <= i < Head(s) ==> Gone(s.all[i]))
    && (forall i :: Head(s) <= i < |s.all| ==> Stands(s.all[i], i == Head(s)))
  }

  /** The state the group-commit protocol sees: what the front thread is doing is its phase. */
  function Abstract(s: Threads): Commit
    requires |s.queue| <= |s.all|
  {
    Commit(WritersOf(s.all), Head(s), if s.queue != [] && s.all[Head(s)].place.Writing? then s.all[Head(s)].place.phase else Idle,
           s.log, s.mem, s.lastSequence)
  }

  lemma EnterRefines(s: Threads, s': Threads, w: Writer)
    requires ThreadsInv(s) && Enter(s, s', w)
    ensures ThreadsInv(s') && Arrive(Abstract(s), Abstract(s'), w)
  {
    assert WritersOf(s'.all) == WritersOf(s.all) + [w];
  }

  /** Moves of one thread that nobody else sees. */
  lemma QuietRefines(s: Threads, s': Threads, i: nat)
    requires ThreadsInv(s) && (Test(s, s', i) || WakeUp(s, s', i))
    ensures ThreadsInv(s') && Abstract(s') == Abstract(s)
  {
    assert WritersOf(s'.all) == WritersOf(s.all);
  }

  /** Only the thread at the front leads. */
  lemma LeaderIsFront(s: Threads, i: nat)
    requires ThreadsInv(s) && i < |s.all| && Leads(s.all[i])
    ensures s.queue != [] && i == Head(s) == s.queue[0] && s.all[i].led
  {
    assert i < Head(s) ==> Gone(s.all[i]);
  }

  lemma QueuedIsTail(s: Threads)
    requires Consecutive(s.all, s.queue)
    ensures QueueOk(s.all, s.queue) && Queued(s.all, s.queue) == WritersOf(s.all)[Head(s)..]
  {
  }

  lemma BuildRefines(s: Threads, s': Threads, i: nat, n: nat)
    requires ThreadsInv(s) && Build(s, s', i, n)
    ensures ThreadsInv(s') && Lead(Abstract(s), Abstract(s'), n)
  {
    hide IsGroup;
    LeaderIsFront(s, i);
    QueuedIsTail(s);
    assert WritersOf(s'.all) == WritersOf(s.all);
  }

  lemma WriteLogRefines(s: Threads, s': Threads, i: nat)
    requires ThreadsInv(s) && WriteLog(s, s', i)
    ensures ThreadsInv(s') && AddRecord(Abstract(s), Abstract(s'))
  {
    hide OpsOf;
    LeaderIsFront(s, i);
    QueuedIsTail(s);
    var ws, n := WritersOf(s.all), s.all[i].place.phase.n;
    assert WritersOf(s'.all) == ws;
    assert s.queue[n - 1] == i + n - 1;
    assert Queued(s.all, s.queue)[..n] == ws[i..i + n];
  }

  lemma WriteMemRefines(s: Threads, s': Threads, i: nat)
    requires ThreadsInv(s) && WriteMem(s, s', i)
    ensures ThreadsInv(s') && InsertIntoMem(Abstract(s), Abstract(s'))
  {
    LeaderIsFront(s, i);
    assert WritersOf(s'.all) == WritersOf(s.all);
  }

  lemma LeaveRefines(s: Threads, s': Threads, i: nat)
    requires ThreadsInv(s) && Leave(s, s', i) && 1 <= s.all[i].place.phase.n
    ensures ThreadsInv(s') && Publish(Abstract(s), Abstract(s'))
  {
    LeaderIsFront(s, i);
    assert WritersOf(s'.all) == WritersOf(s.all);
  }

  lemma LeaveAloneRefines(s: Threads, s': Threads, i: nat)
    requires ThreadsInv(s) && LeaveAlone(s, s', i)
    ensures ThreadsInv(s') && LeadWithoutBatch(Abstract(s), Abstract(s'))
  {
    LeaderIsFront(s, i);
    assert WritersOf(s'.all) == WritersOf(s.all);
  }

  /** Every step of the threads is a step of the protocol, or none. */
  lemma ThreadStepRefines(s: Threads, s': Threads)
    requires ThreadsInv(s) && Inv(Abstract(s)) && ThreadStep(s, s')
    ensures ThreadsInv(s') && Inv(Abstract(s'))
    ensures Abstract(s') == Abstract(s) || Next(Abstract(s), Abstract(s'))
  {
    hide ThreadsInv, Enter, Test, WakeUp, Build, WriteLog, WriteMem, Leave, LeaveAlone, Inv, Arrive, Lead, LeadWithoutBatch, AddRecord, InsertIntoMem, Publish;
    if w :| Enter(s, s', w) { EnterRefines(s, s', w); }
    else if i :| Test(s, s', i) { QuietRefines(s, s', i); }
    else if i :| WakeUp(s, s', i) { QuietRefines(s, s', i); }
    else if i, n :| Build(s, s', i, n) { BuildRefines(s, s', i, n); }
    else if i :| WriteLog(s, s', i) { WriteLogRefines(s, s', i); }
    else if i :| WriteMem(s, s', i) { WriteMemRefines(s, s', i); }
    else if i :| Leave(s, s', i) { GroupIsNotEmpty(s, s', i); LeaveRefines(s, s', i); }
    else if i :| LeaveAlone(s, s', i) { LeaveAloneRefines(s, s', i); }
    if Next(Abstract(s), Abstract(s')) { NextHolds(Abstract(s), Abstract(s')); }
  }

  lemma GroupIsNotEmpty(s: Threads, s': Threads, i: nat)
    requires ThreadsInv(s) && Inv(Abstract(s)) && Leave(s, s', i)
    ensures 1 <= s.all[i].place.phase.n
  {
    LeaderIsFront(s, i);
  }

  ghost predicate ThreadRun(run: seq<Threads>)
  {
    run != [] && Started(run[0]) && forall i :: 0 <= i < |run| - 1 ==> ThreadStep(run[i], run[i + 1])
  }

  lemma {:induction false} ThreadRunInv(run: seq<Threads>, n: nat)
    requires ThreadRun(run) && n < |run|
    ensures ThreadsInv(run[n]) && Inv(Abstract(run[n]))
  {
    hide ThreadStep, Inv, Abstract;
    if n == 0 {
      StartHolds(run[0]);
    } else {
      ThreadRunInv(run, n - 1);
      ThreadStepRefines(run[n - 1], run[n]);
    }
  }

  lemma StartHolds(s: Threads)
    requires Started(s)
    ensures ThreadsInv(s) && Init(Abstract(s)) && Inv(Abstract(s))
  {
    InitHolds(Abstract(s));
  }

  // ------------------------------------------------------------------ what it means

  /** However the threads interleave, at most one is past the loop, and the mutex it gives up does not matter. */
  lemma OneLeader(run: seq<Threads>, n: nat, i: nat, j: nat)
    requires ThreadRun(run) && n < |run| && i < |run[n].all| && j < |run[n].all|
    requires Leads(run[n].all[i]) && Leads(run[n].all[j])
    ensures i == j && run[n].queue != [] && run[n].queue[0] == i
  {
    hide ThreadRun;
    ThreadRunInv(run, n);
    LeaderIsFront(run[n], i);
    LeaderIsFront(run[n], j);
  }

  lemma QueueHasTheRest(s: Threads, i: nat)
    requires Consecutive(s.all, s.queue) && i < |s.all|
    ensures i in s.queue <==> Head(s) <= i
  {
    if i >= Head(s) { assert s.queue[i - Head(s)] == i; }
  }

  /** Who has left the queue led its group, or had done set exactly once, by the leader of its group. */
  lemma DoneExactlyOnce(run: seq<Threads>, n: nat, i: nat)
    requires ThreadRun(run) && n < |run| && i < |run[n].all|
    ensures var s, t := run[n], run[n].all[i];
            && (i !in s.queue ==> t.marked == (if t.led then 0 else 1) && (t.done <==> !t.led))
            && (i in s.queue ==> t.marked == 0 && !t.done)
            && (t.place.Returned? ==> i !in s.queue)
  {
    hide ThreadRun;
    ThreadRunInv(run, n);
    QueueHasTheRest(run[n], i);
  }

  /** No wake-up is lost: who may go on, because it is done or at the front, is not asleep. */
  lemma NobodyIsForgotten(run: seq<Threads>, n: nat, i: nat)
    requires ThreadRun(run) && n < |run| && i < |run[n].all|
    requires run[n].all[i].done || (run[n].queue != [] && run[n].queue[0] == i)
    ensures !run[n].all[i].place.Waiting?
  {
    hide ThreadRun;
    ThreadRunInv(run, n);
  }

  /** The run of the protocol behind a run of the threads: the same steps without the quiet ones. */
  lemma {:induction false} ThreadsRefineCommit(run: seq<Threads>, n: nat) returns (commits: seq<Commit>)
    requires ThreadRun(run) && n < |run|
    ensures ThreadsInv(run[n]) && commits != [] && CommitRun(commits) && commits[|commits| - 1] == Abstract(run[n])
  {
    hide ThreadStep, Inv, Abstract, Next, Init;
    if n == 0 {
      StartHolds(run[0]);
      commits := [Abstract(run[0])];
    } else {
      commits := ThreadsRefineCommit(run, n - 1);
      ThreadRunInv(run, n - 1);
      ThreadStepRefines(run[n - 1], run[n]);
      if Abstract(run[n]) != Abstract(run[n - 1]) {
        commits := commits + [Abstract(run[n])];
      }
    }
  }

  /**
   * So what holds of the protocol holds of the threads: the log has the batches of all writers up to
   * some one, each once, in the order in which they came, and of all that have returned.
   */
  lemma ReturnedIsLogged(run: seq<Threads>, n: nat, i: nat)
    requires ThreadRun(run) && n < |run| && i < |run[n].all| && run[n].all[i].place.Returned?
    ensures exists m :: i < m <= |run[n].all| && LogOps(run[n].log) == OpsOf(WritersOf(run[n].all)[..m])
    ensures run[n].all[i].writer.sync && run[n].all[i].writer.batch.Some? ==>
              exists k :: 0 <= k < |run[n].log| && run[n].log[k].from <= i < run[n].log[k].to && run[n].log[k].synced
  {
    hide ThreadRun, CommitRun;
    DoneExactlyOnce(run, n, i);
    var commits := ThreadsRefineCommit(run, n);
    QueueHasTheRest(run[n], i);
    LoggedOnceInOrder(commits, |commits| - 1);
    if run[n].all[i].writer.sync && run[n].all[i].writer.batch.Some? {
      SyncWritersAreSynced(commits, |commits| - 1, i);
    }
  }
}
