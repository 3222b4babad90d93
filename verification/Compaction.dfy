/** Compaction: which entries DoCompactionWork keeps, and why reads do not change (db/db_impl.cc). */
module Compaction {
  import opened Bytes
  import opened InternalKeys
  import opened Version

  /** No table two or more levels down can hold `user`. */
  ghost predicate BaseLevel(v: Levels, level: nat, user: Slice)
  {
    forall l, i :: level + 2 <= l < |v| && 0 <= i < |v[l]| ==> !v[l][i].Covers(user)
  }

  /** Compaction::level_ptrs_ over the pinned input version. */
  class LevelPointers {
    const level: nat
    const files: Levels
    const ptrs: array<nat>

    constructor (level: nat, files: Levels)
      requires FilesOk(files)
      ensures this.level == level && this.files == files && fresh(ptrs) && Valid()
      ensures forall user: Slice :: Behind(user)
    {
      this.level := level;
      this.files := files;
      ptrs := new nat[NUM_LEVELS](_ => 0);
    }

    ghost predicate Valid()
      reads ptrs
    {
      && FilesOk(files) && ptrs.Length == NUM_LEVELS
      && forall l :: 0 <= l < NUM_LEVELS ==> ptrs[l] <= |files[l]|
    }

    /** Every table already passed ends before `user`. */
    ghost predicate Behind(user: Slice)
      requires Valid()
      reads ptrs
    {
      forall l, i :: level + 2 <= l < NUM_LEVELS && 0 <= i < ptrs[l] ==> Less(files[l][i].largest.user, user)
    }

    /** The pointers may stay where they are when the keys asked for do not decrease. */
    lemma BehindGrows(user: Slice, later: Slice)
      requires Valid() && Behind(user) && !Less(later, user)
      ensures Behind(later)
    {
      forall l, i | level + 2 <= l < NUM_LEVELS && 0 <= i < ptrs[l]
        ensures Less(files[l][i].largest.user, later)
      {
        Order(files[l][i].largest.user, user, later);
      }
    }

    /** IsBaseLevelForKey. Pointers only move forward, over tables that end before `user`. */
    method IsBaseLevelForKey(user: Slice) returns (base: bool)
      requires Valid() && Behind(user)
      modifies ptrs
      ensures Valid() && Behind(user)
      ensures base <==> BaseLevel(files, level, user)
    {
      var l := level + 2;
      while l < NUM_LEVELS
        invariant level + 2 <= l
        invariant Valid() && Behind(user)
        invariant forall m, i :: level + 2 <= m < l && m < NUM_LEVELS && 0 <= i < |files[m]| ==> !files[m][i].Covers(user)
      {
        while ptrs[l] < |files[l]|
          invariant Valid() && Behind(user)
          invariant ptrs[l] == |files[l]| ==> forall i :: 0 <= i < |files[l]| ==> !files[l][i].Covers(user)
          decreases |files[l]| - ptrs[l]
        {
          var f := files[l][ptrs[l]];
          if !Less(f.largest.user, user) {
            if !Less(user, f.smallest.user) {
              return false;
            }
            NotCovered(files[l], ptrs[l], user);
            break;
          }
          ptrs[l] := ptrs[l] + 1;
        }
        l := l + 1;
      }
      return true;
    }

    /** Where the pointers stand once the entries before `n` have been handled. */
    ghost predicate Reached(merged: seq<Entry>, n: nat)
      requires Valid() && n <= |merged|
      reads ptrs
    {
      if n == 0 then forall user: Slice :: Behind(user) else Behind(merged[n - 1].key)
    }

    /** Rule (A), then the rule for deletion markers that hide nothing. */
    method ShouldDrop(merged: seq<Entry>, i: nat, lastSequenceForKey: nat, smallest: nat) returns (drop: bool)
      requires Valid() && Sorted(merged) && i < |merged| && Reached(merged, i)
      requires lastSequenceForKey == LastSequenceForKey(merged, i)
      modifies ptrs
      ensures Valid() && Reached(merged, i + 1)
      ensures drop <==> Dropped(files, level, merged, smallest, i)
    {
      var e := merged[i];
      if 0 < i {
        assert ILess(merged[i - 1].Ikey(), merged[i].Ikey());
        Order(merged[i - 1].key, e.key, e.key);
        BehindGrows(merged[i - 1].key, e.key);
      }
      drop := false;
      if lastSequenceForKey <= smallest {
        drop := true;
      } else if e.kind.Deletion? && e.seqno <= smallest {
        drop := IsBaseLevelForKey(e.key);
      }
    }
  }

  /** A key before the table at `at` and after all earlier ones is covered by none. */
  lemma NotCovered(files: seq<File>, at: nat, user: Slice)
    requires AllOk(files) && KeySorted(files) && at < |files|
    requires forall i :: 0 <= i < at ==> Less(files[i].largest.user, user)
    requires Less(user, files[at].smallest.user)
    ensures forall i :: 0 <= i < |files| ==> !files[i].Covers(user)
  {
    forall i | at < i < |files|
      ensures !files[i].Covers(user)
    {
      KeysInRange(files[at], |files[at].run| - 1);
      IOrder(files[at].smallest, files[at].largest, files[i].smallest);
      Order(user, files[at].smallest.user, files[i].smallest.user);
    }
  }

  /** last_sequence_for_key when entry `i` is reached. */
  function LastSequenceForKey(merged: seq<Entry>, i: nat): nat
    requires i < |merged|
  {
    if 0 < i && merged[i - 1].key == merged[i].key then merged[i - 1].seqno else MAX_SEQUENCE
  }

  /** Rule (A) and the obsolete-deletion rule. */
  ghost predicate Dropped(v: Levels, level: nat, merged: seq<Entry>, smallest: nat, i: nat)
    requires i < |merged|
  {
    || LastSequenceForKey(merged, i) <= smallest
    || (merged[i].kind.Deletion? && merged[i].seqno <= smallest && BaseLevel(v, level, merged[i].key))
  }

  /** The entries among the first `n` that are written out. */
  ghost function Kept(v: Levels, level: nat, merged: seq<Entry>, smallest: nat, n: nat): seq<Entry>
    requires n <= |merged|
  {
    if n == 0 then [] else
      Kept(v, level, merged, smallest, n - 1) + if Dropped(v, level, merged, smallest, n - 1) then [] else [merged[n - 1]]
  }

  lemma {:induction false} KeptAre(v: Levels, level: nat, merged: seq<Entry>, smallest: nat, n: nat)
    requires n <= |merged|
    ensures forall x :: x in Kept(v, level, merged, smallest, n) <==>
                        exists j :: 0 <= j < n && merged[j] == x && !Dropped(v, level, merged, smallest, j)
  {
    if 0 < n {
      KeptAre(v, level, merged, smallest, n - 1);
    }
  }

  /** A deletion marker every reader sees past, with nothing two or more levels down to hide. */
  ghost predicate Obsolete(v: Levels, level: nat, x: Entry, smallest: nat)
  {
    x.kind.Deletion? && x.seqno <= smallest && BaseLevel(v, level, x.key)
  }

  /** In a sorted run an older entry of a key comes later, and only that key lies in between. */
  lemma OlderComesLater(run: seq<Entry>, i: nat, j: nat)
    requires Sorted(run) && i < |run| && j < |run|
    requires run[i].key == run[j].key && run[j].seqno < run[i].seqno
    ensures i < j && run[j - 1].key == run[j].key && run[j - 1].seqno <= run[i].seqno
  {
    IOrder(run[i].Ikey(), run[j].Ikey(), run[i].Ikey());
    Order(run[i].key, run[j].key, run[i].key);
    if i < j - 1 {
      assert ILess(run[i].Ikey(), run[j - 1].Ikey());
      assert ILess(run[j - 1].Ikey(), run[j].Ikey());
      Order(run[i].key, run[j - 1].key, run[j].key);
    }
  }

  /** Rule (A) finds exactly the entries with a newer one at or below the smallest snapshot. */
  lemma RuleA(merged: seq<Entry>, smallest: nat, i: nat)
    requires Sorted(merged) && Distinct(Entries(merged)) && smallest < MAX_SEQUENCE && i < |merged|
    ensures LastSequenceForKey(merged, i) <= smallest <==> Superseded(Entries(merged), merged[i], smallest)
  {
    if 0 < i && merged[i - 1].key == merged[i].key {
      var p := merged[i - 1];
      assert p in Entries(merged) && merged[i] in Entries(merged);
      Order(p.key, p.key, p.key);
      assert ILess(p.Ikey(), merged[i].Ikey());
      assert p.seqno != merged[i].seqno;
    }
    if Superseded(Entries(merged), merged[i], smallest) {
      var n :| n in Entries(merged) && n.key == merged[i].key && merged[i].seqno < n.seqno <= smallest;
      var j :| 0 <= j < |merged| && merged[j] == n;
      OlderComesLater(merged, j, i);
    }
  }

  /** What is kept, whatever the order: neither superseded nor an obsolete deletion marker. */
  lemma KeptExactly(v: Levels, level: nat, merged: seq<Entry>, smallest: nat)
    requires Sorted(merged) && Distinct(Entries(merged)) && smallest < MAX_SEQUENCE
    ensures forall x :: x in Kept(v, level, merged, smallest, |merged|) <==>
                        x in merged && !Superseded(Entries(merged), x, smallest) && !Obsolete(v, level, x, smallest)
  {
    hide Superseded, BaseLevel, Sorted, Distinct, LastSequenceForKey;
    KeptAre(v, level, merged, smallest, |merged|);
    forall i | 0 <= i < |merged|
      ensures Dropped(v, level, merged, smallest, i) <==>
              Superseded(Entries(merged), merged[i], smallest) || Obsolete(v, level, merged[i], smallest)
    {
      RuleA(merged, smallest, i);
    }
  }

  /** The newest entry of `e`'s user key that is older than `e`. */
  ghost predicate NewestOlder(entries: set<Entry>, e: Entry, x: Entry)
  {
    && x in entries && x.key == e.key && x.seqno < e.seqno
    && forall y :: y in entries && y.key == e.key && y.seqno < e.seqno ==> y.seqno <= x.seqno
  }

  /** Without the dropped deletion marker `d`, the value `x` outside the inputs becomes visible. */
  ghost predicate Exposed(v: Levels, level: nat, merged: set<Entry>, rest: set<Entry>, smallest: nat, d: Entry, x: Entry)
  {
    && d in merged && Obsolete(v, level, d, smallest) && !Superseded(merged + rest, d, smallest)
    && NewestOlder(rest, d, x) && x.kind.Value?
  }

  ghost predicate Exposes(v: Levels, level: nat, merged: set<Entry>, rest: set<Entry>, smallest: nat)
  {
    exists d, x :: Exposed(v, level, merged, rest, smallest, d, x)
  }

  /** `kept` is what a compaction leaves of `merged`. */
  ghost predicate Survivors(v: Levels, level: nat, merged: set<Entry>, kept: set<Entry>, smallest: nat)
  {
    forall x :: x in kept <==> x in merged && !Superseded(merged, x, smallest) && !Obsolete(v, level, x, smallest)
  }

  /**
   * Compaction preserves meaning: replacing the inputs by the kept entries changes no read at a
   * snapshot at or after `smallest`, exactly when no dropped deletion marker exposes a value.
   */
  lemma CompactionPreservesReads(v: Levels, level: nat, merged: seq<Entry>, rest: set<Entry>, smallest: nat)
    requires Sorted(merged) && Entries(merged) !! rest && Distinct(Entries(merged) + rest) && smallest < MAX_SEQUENCE
    ensures ReadsAgree(Entries(Kept(v, level, merged, smallest, |merged|)) + rest, Entries(merged) + rest, smallest) <==>
            !Exposes(v, level, Entries(merged), rest, smallest)
  {
    var all, kept := Entries(merged), Entries(Kept(v, level, merged, smallest, |merged|));
    KeptExactly(v, level, merged, smallest);
    assert Survivors(v, level, all, kept, smallest);
    SurvivorsReadAlike(v, level, all, rest, kept, smallest);
  }

  lemma SurvivorsReadAlike(v: Levels, level: nat, merged: set<Entry>, rest: set<Entry>, kept: set<Entry>, smallest: nat)
    requires merged !! rest && Distinct(merged + rest) && Survivors(v, level, merged, kept, smallest)
    ensures ReadsAgree(kept + rest, merged + rest, smallest) <==> !Exposes(v, level, merged, rest, smallest)
  {
    hide Survivors, Sees, Superseded, Obsolete;
    if d, x :| Exposed(v, level, merged, rest, smallest, d, x) {
      ExposedIsSeen(v, level, merged, rest, kept, smallest, d, x);
    } else {
      forall key, snapshot, r, r' | smallest <= snapshot && Sees(kept + rest, key, snapshot, r) && Sees(merged + rest, key, snapshot, r')
        ensures Outcome(r) == Outcome(r')
      {
        ReadSurvives(v, level, merged, rest, kept, smallest, key, snapshot, r, r');
      }
    }
  }

  lemma ExposedIsSeen(v: Levels, level: nat, merged: set<Entry>, rest: set<Entry>, kept: set<Entry>, smallest: nat, d: Entry, x: Entry)
    requires merged !! rest && Distinct(merged + rest) && Survivors(v, level, merged, kept, smallest)
    requires Exposed(v, level, merged, rest, smallest, d, x)
    ensures Sees(kept + rest, d.key, smallest, Some(x)) && Sees(merged + rest, d.key, smallest, Some(d))
    ensures Outcome(Some(x)) != Outcome(Some(d))
  {
    forall y | y in kept + rest && y.key == d.key && y.seqno <= smallest
      ensures y.seqno <= x.seqno
    {
      assert y in merged + rest && d in merged + rest;
    }
  }

  lemma ReadSurvives(v: Levels, level: nat, merged: set<Entry>, rest: set<Entry>, kept: set<Entry>, smallest: nat,
                     key: Slice, snapshot: nat, after: Option<Entry>, before: Option<Entry>)
    requires Distinct(merged + rest) && Survivors(v, level, merged, kept, smallest) && smallest <= snapshot
    requires Sees(kept + rest, key, snapshot, after) && Sees(merged + rest, key, snapshot, before)
    requires !Exposes(v, level, merged, rest, smallest)
    ensures Outcome(after) == Outcome(before)
  {
    if after.Some? {
      assert after.value in merged + rest;
    }
    if before.Some? && before.value !in kept + rest && after.Some? {
      var e, x := before.value, after.value;
      assert x.seqno != e.seqno;
      assert x in rest;
      assert !Superseded(merged + rest, e, smallest);
      if x.kind.Value? {
        assert Exposed(v, level, merged, rest, smallest, e, x);
      }
    }
  }

  /** The entries of some tables, one table after the other. */
  function Flat(files: seq<File>): seq<Entry>
  {
    if files == [] then [] else Flat(files[..|files| - 1]) + files[|files| - 1].run
  }

  /** The table TableBuilder finishes with the entries `run`. */
  function NewFile(number: nat, size: nat, run: seq<Entry>): File
    requires run != []
  {
    File(number, size, run[0].Ikey(), run[|run| - 1].Ikey(), run)
  }

  /** Tables just written, in order, with increasing numbers from `first` up to `next`. */
  ghost predicate Written(files: seq<File>, first: nat, next: nat)
  {
    && AllOk(files) && KeySorted(files)
    && first + |files| == next
    && (forall i :: 0 <= i < |files| ==> files[i].number == first + i)
  }

  lemma {:induction false} KeptSorted(v: Levels, level: nat, merged: seq<Entry>, smallest: nat, n: nat)
    requires n <= |merged| && Sorted(merged)
    ensures Sorted(Kept(v, level, merged, smallest, n))
    ensures forall x, j :: x in Kept(v, level, merged, smallest, n) && n <= j < |merged| ==> ILess(x.Ikey(), merged[j].Ikey())
  {
    KeptAre(v, level, merged, smallest, n);
    if 0 < n {
      KeptSorted(v, level, merged, smallest, n - 1);
    }
  }

  /** What has been kept so far: the finished tables, then the open one. */
  ghost predicate Progress(kept: seq<Entry>, outputs: seq<File>, first: nat, next: nat, builder: seq<Entry>)
  {
    && Written(outputs, first, next)
    && Flat(outputs) + builder == kept
  }

  lemma {:induction false} LargestInFlat(files: seq<File>, i: nat) returns (d: nat)
    requires AllOk(files) && i < |files|
    ensures d < |Flat(files)| && Flat(files)[d].Ikey() == files[i].largest
  {
    var n := |files| - 1;
    if i < n {
      d := LargestInFlat(files[..n], i);
    } else {
      d := |Flat(files)| - 1;
    }
  }

  lemma NewFileOk(kept: seq<Entry>, before: seq<Entry>, run: seq<Entry>, number: nat, size: nat)
    requires kept == before + run && run != []
    requires Sorted(kept) && forall x :: x in kept ==> x.seqno <= MAX_SEQUENCE
    ensures FileOk(NewFile(number, size, run))
  {
    assert forall i :: 0 <= i < |run| ==> run[i] in kept;
    assert forall i :: 0 <= i < |run| ==> kept[|before| + i] == run[i];
    forall i, j | 0 <= i < j < |run|
      ensures ILess(run[i].Ikey(), run[j].Ikey())
    {
      assert ILess(kept[|before| + i].Ikey(), kept[|before| + j].Ikey());
    }
  }

  lemma WrittenAppend(files: seq<File>, first: nat, next: nat, f: File)
    requires Written(files, first, next) && FileOk(f) && f.number == next
    requires Sorted(Flat(files) + f.run)
    ensures Written(files + [f], first, next + 1) && Flat(files + [f]) == Flat(files) + f.run
  {
    assert (files + [f])[..|files|] == files;
    var all := Flat(files) + f.run;
    forall i | 0 <= i < |files|
      ensures ILess(files[i].largest, f.smallest)
    {
      var d := LargestInFlat(files, i);
      assert ILess(all[d].Ikey(), all[|Flat(files)|].Ikey());
    }
  }

  /** Handling one entry: `drop` decides whether it goes to the open table. */
  lemma AddEntry(files: Levels, level: nat, merged: seq<Entry>, smallest: nat, n: nat,
                 outputs: seq<File>, first: nat, next: nat, builder: seq<Entry>, drop: bool)
    requires n < |merged| && Progress(Kept(files, level, merged, smallest, n), outputs, first, next, builder)
    requires drop <==> Dropped(files, level, merged, smallest, n)
    ensures Progress(Kept(files, level, merged, smallest, n + 1), outputs, first, next,
                     if drop then builder else builder + [merged[n]])
  {
    if !drop {
      assert Flat(outputs) + (builder + [merged[n]]) == (Flat(outputs) + builder) + [merged[n]];
    }
  }

  /** CompactionState and the locals of the loop. */
  datatype CompactionState = CompactionState(
    outputs: seq<File>, next: nat, builder: seq<Entry>,
    hasCurrentUserKey: bool, currentUserKey: Slice, lastSequenceForKey: nat)

  ghost predicate Handled(c: CompactionState, files: Levels, level: nat, merged: seq<Entry>, smallest: nat, first: nat, n: nat)
    requires n <= |merged|
  {
    && (c.hasCurrentUserKey <==> 0 < n)
    && (0 < n ==> c.currentUserKey == merged[n - 1].key && c.lastSequenceForKey == merged[n - 1].seqno)
    && Progress(Kept(files, level, merged, smallest, n), c.outputs, first, c.next, c.builder)
  }

  /** FinishCompactionOutputFile: the open table becomes the next output. */
  method FinishCompactionOutputFile(c: CompactionState, sizeOf: seq<Entry> -> nat, ghost files: Levels, ghost level: nat,
                                    ghost merged: seq<Entry>, ghost smallest: nat, ghost first: nat, ghost n: nat)
    returns (c': CompactionState)
    requires n <= |merged| && Sorted(merged) && c.builder != []
    requires forall i :: 0 <= i < |merged| ==> merged[i].seqno <= MAX_SEQUENCE
    requires Handled(c, files, level, merged, smallest, first, n)
    ensures c' == c.(outputs := c.outputs + [NewFile(c.next, sizeOf(c.builder), c.builder)], next := c.next + 1, builder := [])
    ensures Handled(c', files, level, merged, smallest, first, n)
  {
    var f := NewFile(c.next, sizeOf(c.builder), c.builder);
    OutputOk(c, f.size, files, level, merged, smallest, n);
    WrittenAppend(c.outputs, first, c.next, f);
    c' := c.(outputs := c.outputs + [f], next := c.next + 1, builder := []);
  }

  /** An output is finished, if that is asked for and one is open. */
  method FinishOpenOutput(asked: bool, c: CompactionState, sizeOf: seq<Entry> -> nat, ghost files: Levels, ghost level: nat,
                          ghost merged: seq<Entry>, ghost smallest: nat, ghost first: nat, ghost n: nat)
    returns (c': CompactionState)
    requires n <= |merged| && Sorted(merged)
    requires forall i :: 0 <= i < |merged| ==> merged[i].seqno <= MAX_SEQUENCE
    requires Handled(c, files, level, merged, smallest, first, n)
    ensures Handled(c', files, level, merged, smallest, first, n)
    ensures asked ==> c'.builder == []
  {
    c' := c;
    if asked && c.builder != [] {
      c' := FinishCompactionOutputFile(c, sizeOf, files, level, merged, smallest, first, n);
    }
  }

  lemma OutputOk(c: CompactionState, size: nat, files: Levels, level: nat, merged: seq<Entry>, smallest: nat, n: nat)
    requires n <= |merged| && Sorted(merged) && c.builder != []
    requires forall i :: 0 <= i < |merged| ==> merged[i].seqno <= MAX_SEQUENCE
    requires Kept(files, level, merged, smallest, n) == Flat(c.outputs) + c.builder
    ensures FileOk(NewFile(c.next, size, c.builder)) && Sorted(Flat(c.outputs) + c.builder)
  {
    KeptSorted(files, level, merged, smallest, n);
    KeptAre(files, level, merged, smallest, n);
    NewFileOk(Kept(files, level, merged, smallest, n), Flat(c.outputs), c.builder, c.next, size);
  }

  /** One round of the loop, for entry `i`. */
  method CompactEntry(c: CompactionState, pointers: LevelPointers, merged: seq<Entry>, smallest: nat, i: nat, ghost first: nat)
    returns (c': CompactionState)
    requires pointers.Valid() && i < |merged| && Sorted(merged) && pointers.Reached(merged, i)
    requires Handled(c, pointers.files, pointers.level, merged, smallest, first, i)
    modifies pointers.ptrs
    ensures pointers.Valid() && pointers.Reached(merged, i + 1)
    ensures Handled(c', pointers.files, pointers.level, merged, smallest, first, i + 1)
  {
    var e := merged[i];
    c' := c;
    if !c'.hasCurrentUserKey || e.key != c'.currentUserKey {
      c' := c'.(hasCurrentUserKey := true, currentUserKey := e.key, lastSequenceForKey := MAX_SEQUENCE);
    }
    var drop := pointers.ShouldDrop(merged, i, c'.lastSequenceForKey, smallest);
    c' := c'.(lastSequenceForKey := e.seqno);
    AddEntry(pointers.files, pointers.level, merged, smallest, i, c'.outputs, first, c'.next, c'.builder, drop);
    if !drop {
      c' := c'.(builder := c'.builder + [e]);
    }
  }

  /**
   * DoCompactionWork over the merged input. `stopBefore` and `full` stand for ShouldStopBefore
   * and the output size check, whatever they answer; `sizeOf` for the size of a finished table.
   */
  method DoCompactionWork(files: Levels, level: nat, merged: seq<Entry>, smallest: nat, first: nat,
                          stopBefore: nat -> bool, full: nat -> bool, sizeOf: seq<Entry> -> nat)
    returns (outputs: seq<File>, next: nat)
    requires FilesOk(files) && Sorted(merged)
    requires forall i :: 0 <= i < |merged| ==> merged[i].seqno <= MAX_SEQUENCE
    ensures Written(outputs, first, next)
    ensures Flat(outputs) == Kept(files, level, merged, smallest, |merged|)
  {
    var pointers := new LevelPointers(level, files);
    var c := CompactionState([], first, [], false, [], MAX_SEQUENCE);
    for i := 0 to |merged|
      invariant fresh(pointers.ptrs) && pointers.level == level && pointers.files == files
      invariant pointers.Valid() && pointers.Reached(merged, i)
      invariant Handled(c, files, level, merged, smallest, first, i)
    {
      hide *;
      c := FinishOpenOutput(stopBefore(i), c, sizeOf, files, level, merged, smallest, first, i);
      c := CompactEntry(c, pointers, merged, smallest, i, first);
      c := FinishOpenOutput(full(i), c, sizeOf, files, level, merged, smallest, first, i + 1);
    }
    c := FinishOpenOutput(true, c, sizeOf, files, level, merged, smallest, first, |merged|);
    outputs, next := c.outputs, c.next;
  }
}
