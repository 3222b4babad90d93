/** The n-way merge cursor (table/merger.cc). */
module Merging {
  import opened Bytes
  import opened InternalKeys
  import opened Cursor

  /** `merged` lists, in order, the entries of runs that have no internal key in common. */
  ghost predicate IsMergeOf(merged: seq<Entry>, runs: seq<seq<Entry>>)
  {
    && Sorted(merged)
    && (forall i :: 0 <= i < |runs| ==> Sorted(runs[i]) && Entries(runs[i]) <= Entries(merged))
    && (forall x :: x in merged ==> exists i :: 0 <= i < |runs| && x in runs[i])
    && (forall i, j, x :: 0 <= i < j < |runs| && x in runs[i] ==> x !in runs[j])
  }

  /** How many entries of `run` come before position `p` of the merge. */
  function Rank(run: seq<Entry>, merged: seq<Entry>, p: nat): (r: nat)
    requires p <= |merged|
    ensures r <= |run|
  {
    if p < |merged| then SeekFrom(run, merged[p].Ikey(), 0) else |run|
  }

  /** Position of a child one entry before `Rank`, or none. */
  function JustBefore(run: seq<Entry>, merged: seq<Entry>, p: nat): nat
    requires p <= |merged|
  {
    var r := Rank(run, merged, p);
    if r == 0 then |run| else r - 1
  }

  lemma SeekIsFirst(run: seq<Entry>, target: IKey, i: nat)
    requires Sorted(run) && i <= |run|
    requires forall j :: 0 <= j < i ==> ILess(run[j].Ikey(), target)
    requires i < |run| ==> !ILess(run[i].Ikey(), target)
    ensures SeekFrom(run, target, 0) == i
  {
  }

  lemma PositionIn(merged: seq<Entry>, x: Entry) returns (m: nat)
    requires x in Entries(merged)
    ensures m < |merged| && merged[m] == x
  {
    m :| m < |merged| && merged[m] == x;
  }

  /** Index order and key order agree in a merge. */
  lemma IndexOrder(merged: seq<Entry>, i: nat, j: nat)
    requires Sorted(merged) && i < |merged| && j < |merged|
    ensures i < j <==> ILess(merged[i].Ikey(), merged[j].Ikey())
  {
    IOrder(merged[i].Ikey(), merged[j].Ikey(), merged[i].Ikey());
  }

  /** An entry after position `p` is at or after position `p + 1`. */
  lemma Later(merged: seq<Entry>, p: nat, x: Entry)
    requires Sorted(merged) && p < |merged| && x in Entries(merged) && x != merged[p] && !ILess(x.Ikey(), merged[p].Ikey())
    ensures p + 1 < |merged| && !ILess(x.Ikey(), merged[p + 1].Ikey())
  {
    var m := PositionIn(merged, x);
    IndexOrder(merged, m, p);
    IndexOrder(merged, m, p + 1);
  }

  /** Moving past position `p` moves past its entry in the run that holds it, and nothing else. */
  lemma RankStep(run: seq<Entry>, merged: seq<Entry>, p: nat)
    requires Sorted(run) && Sorted(merged) && Entries(run) <= Entries(merged) && p < |merged|
    ensures merged[p] in run ==> Rank(run, merged, p) < |run| && run[Rank(run, merged, p)] == merged[p]
    ensures Rank(run, merged, p + 1) == Rank(run, merged, p) + if merged[p] in run then 1 else 0
  {
    var r := Rank(run, merged, p);
    if merged[p] in run {
      var j :| 0 <= j < |run| && run[j] == merged[p];
      OnlyOnce(run, merged, p, j, r);
    }
    var next := r + if merged[p] in run then 1 else 0;
    if next < |run| {
      assert run[next] in run && run[next] in Entries(run);
      if r < next {
        IndexOrder(run, r, next);
        IOrder(run[r].Ikey(), run[next].Ikey(), run[r].Ikey());
      }
      Later(merged, p, run[next]);
    }
    if p + 1 < |merged| { BeforeNext(run, merged, p, next); }
  }

  lemma BeforeNext(run: seq<Entry>, merged: seq<Entry>, p: nat, next: nat)
    requires Sorted(run) && Sorted(merged) && p + 1 < |merged| && next <= |run|
    requires forall j :: 0 <= j < next ==> ILess(run[j].Ikey(), merged[p].Ikey()) || run[j] == merged[p]
    requires next < |run| ==> !ILess(run[next].Ikey(), merged[p + 1].Ikey())
    ensures Rank(run, merged, p + 1) == next
  {
    hide ILess;
    IndexOrder(merged, p, p + 1);
    forall j | 0 <= j < next
      ensures ILess(run[j].Ikey(), merged[p + 1].Ikey())
    {
      IOrder(run[j].Ikey(), merged[p].Ikey(), merged[p + 1].Ikey());
    }
    SeekIsFirst(run, merged[p + 1].Ikey(), next);
  }

  lemma OnlyOnce(run: seq<Entry>, merged: seq<Entry>, p: nat, j: nat, r: nat)
    requires Sorted(run) && Sorted(merged) && p < |merged| && j < |run| && run[j] == merged[p]
    requires r == Rank(run, merged, p)
    ensures r == j
  {
    IOrder(run[j].Ikey(), run[j].Ikey(), run[j].Ikey());
    if r < j { IndexOrder(run, r, j); }
  }

  lemma RankAtStart(run: seq<Entry>, merged: seq<Entry>)
    requires Sorted(run) && Sorted(merged) && Entries(run) <= Entries(merged)
    ensures Rank(run, merged, 0) == 0
  {
    FirstEntry(run);
    if merged != [] && run != [] {
      var m := PositionIn(merged, run[0]);
      IndexOrder(merged, m, 0);
    }
  }

  class MergingIterator {
    const children: seq<InternalIterator>
    var current: Option<nat>
    var direction: Direction
    ghost const merged: seq<Entry>
    ghost var at: nat

    ghost function Runs(): seq<seq<Entry>>
    {
      seq(|children|, i requires 0 <= i < |children| => children[i].entries)
    }

    ghost predicate Wired()
    {
      && (forall i, j :: 0 <= i < j < |children| ==> children[i] != children[j])
      && IsMergeOf(merged, Runs())
    }

    /** All children stand at their first entry from position `p` of the merge on. */
    ghost predicate AllAfter(p: nat)
      requires p <= |merged|
      reads children
    {
      forall i :: 0 <= i < |children| ==> children[i].at == Rank(children[i].entries, merged, p)
    }

    /** All children but `c` stand at their last entry before position `p` of the merge. */
    ghost predicate OthersBefore(p: nat, c: nat)
      requires p <= |merged|
      reads children
    {
      forall i :: 0 <= i < |children| && i != c ==> children[i].at == JustBefore(children[i].entries, merged, p)
    }

    ghost predicate Stands()
      reads this, children
    {
      && at <= |merged| && (at == |merged| <==> current.None?)
      && (current.Some? ==>
            && current.value < |children|
            && children[current.value].at == Rank(children[current.value].entries, merged, at) < |children[current.value].entries|
            && children[current.value].entries[children[current.value].at] == merged[at])
    }

    ghost predicate Valid()
      reads this, children
    {
      && Wired() && Stands()
      && (current.Some? && direction.Forward? ==> AllAfter(at))
      && (current.Some? && direction.Reverse? ==> OthersBefore(at, current.value))
    }

    constructor (children: seq<InternalIterator>, ghost merged: seq<Entry>)
      requires forall i, j :: 0 <= i < j < |children| ==> children[i] != children[j]
      requires IsMergeOf(merged, seq(|children|, i requires 0 <= i < |children| => children[i].entries))
      ensures Valid() && this.children == children && this.merged == merged && at == |merged|
    {
      this.children, this.merged := children, merged;
      current, direction, at := None, Forward, |merged|;
      new;
      assert Runs() == seq(|children|, i requires 0 <= i < |children| => children[i].entries);
    }

    method Current() returns (e: Entry)
      requires Valid() && at < |merged|
      ensures e == merged[at]
    {
      e := children[current.value].entries[children[current.value].at];
    }

    /** Each entry of the merge is in one child. */
    ghost function HolderOf(p: nat): (k: nat)
      requires Wired() && p < |merged|
      ensures k < |children| && merged[p] in children[k].entries
    {
      assert merged[p] in merged;
      var k :| 0 <= k < |Runs()| && merged[p] in Runs()[k];
      k
    }

    lemma OneHolder(p: nat, i: nat, k: nat)
      requires Wired() && p < |merged| && i < |children| && k < |children| && merged[p] in children[k].entries
      ensures i != k ==> merged[p] !in children[i].entries
    {
      var a, b := if i < k then i else k, if i < k then k else i;
      assert Runs()[a] == children[a].entries && Runs()[b] == children[b].entries;
    }

    lemma ChildFits(i: nat)
      requires Wired() && i < |children|
      ensures Sorted(children[i].entries) && Entries(children[i].entries) <= Entries(merged)
    {
      assert Runs()[i] == children[i].entries;
    }

    /** No valid child stands before child `c`. */
    ghost predicate Least(c: Option<nat>, n: nat)
      requires n <= |children|
      reads children
    {
      && (c.None? ==> forall j :: 0 <= j < n ==> !children[j].Valid())
      && (c.Some? ==>
            && c.value < n && children[c.value].Valid()
            && forall j :: 0 <= j < n && children[j].Valid() ==> !ILess(children[j].Item().Ikey(), children[c.value].Item().Ikey()))
    }

    method FindSmallest(ghost p: nat)
      requires Wired() && p <= |merged| && AllAfter(p)
      modifies this`current, this`at
      ensures Stands() && at == p
    {
      var smallest: Option<nat> := None;
      for i := 0 to |children|
        invariant Least(smallest, i)
      {
        if children[i].Valid() {
          if smallest.None? || ILess(children[i].Item().Ikey(), children[smallest.value].Item().Ikey()) {
            StillLeast(smallest, i);
            smallest := Some(i);
          }
        }
      }
      LeastStands(smallest, p);
      current := smallest;
      at := p;
    }

    lemma StillLeast(c: Option<nat>, i: nat)
      requires i < |children| && Least(c, i) && children[i].Valid()
      requires c.Some? ==> ILess(children[i].Item().Ikey(), children[c.value].Item().Ikey())
      ensures Least(Some(i), i + 1)
    {
      var key := children[i].Item().Ikey();
      IOrder(key, key, key);
      forall j | 0 <= j < i && children[j].Valid()
        ensures !ILess(children[j].Item().Ikey(), key)
      {
        IOrder(key, children[c.value].Item().Ikey(), children[j].Item().Ikey());
      }
    }

    lemma LeastStands(c: Option<nat>, p: nat)
      requires Wired() && p <= |merged| && AllAfter(p) && Least(c, |children|)
      ensures p < |merged| <==> c.Some?
      ensures c.Some? ==> children[c.value].Item() == merged[p]
    {
      if p < |merged| {
        var k := HolderOf(p);
        ChildFits(k);
        RankStep(children[k].entries, merged, p);
        assert children[k].Item() == merged[p];
        ChildFits(c.value);
        var x := children[c.value].Item();
        assert x in Entries(children[c.value].entries);
        var m := PositionIn(merged, x);
        IndexOrder(merged, m, p);
        IndexOrder(merged, p, m);
      }
    }

    ghost predicate AllBefore(p: nat)
      requires p <= |merged|
      reads children
    {
      forall i :: 0 <= i < |children| ==> children[i].at == JustBefore(children[i].entries, merged, p)
    }

    /** No valid child from `n` on stands after child `c`. */
    ghost predicate Greatest(c: Option<nat>, n: nat)
      reads children
    {
      && (c.None? ==> forall j :: n <= j < |children| ==> !children[j].Valid())
      && (c.Some? ==>
            && n <= c.value < |children| && children[c.value].Valid()
            && forall j :: n <= j < |children| && children[j].Valid() ==> !ILess(children[c.value].Item().Ikey(), children[j].Item().Ikey()))
    }

    method FindLargest(ghost p: nat)
      requires Wired() && p <= |merged| && AllBefore(p)
      modifies this`current, this`at
      ensures Stands() && at == if p == 0 then |merged| else p - 1
      ensures p > 0 ==> OthersBefore(p - 1, current.value)
    {
      var largest: Option<nat> := None;
      for i := |children| downto 0
        invariant Greatest(largest, i)
      {
        if children[i].Valid() {
          if largest.None? || ILess(children[largest.value].Item().Ikey(), children[i].Item().Ikey()) {
            StillGreatest(largest, i);
            largest := Some(i);
          }
        }
      }
      GreatestStands(largest, p);
      current := largest;
      at := if p == 0 then |merged| else p - 1;
    }

    lemma StillGreatest(c: Option<nat>, i: nat)
      requires i < |children| && Greatest(c, i + 1) && children[i].Valid()
      requires c.Some? ==> ILess(children[c.value].Item().Ikey(), children[i].Item().Ikey())
      ensures Greatest(Some(i), i)
    {
      var key := children[i].Item().Ikey();
      IOrder(key, key, key);
      forall j | i < j < |children| && children[j].Valid()
        ensures !ILess(key, children[j].Item().Ikey())
      {
        IOrder(children[j].Item().Ikey(), children[c.value].Item().Ikey(), key);
        IOrder(children[j].Item().Ikey(), key, key);
      }
    }

    /** A valid child just before `p` stands at or before position `p - 1`. */
    lemma NotLater(p: nat, i: nat)
      requires Wired() && 0 < p <= |merged| && i < |children| && children[i].Valid()
      requires children[i].at == JustBefore(children[i].entries, merged, p)
      ensures !ILess(merged[p - 1].Ikey(), children[i].Item().Ikey())
    {
      ChildFits(i);
      var run := children[i].entries;
      RankStep(run, merged, p - 1);
      IOrder(run[children[i].at].Ikey(), merged[p - 1].Ikey(), merged[p - 1].Ikey());
    }

    lemma GreatestStands(c: Option<nat>, p: nat)
      requires Wired() && p <= |merged| && AllBefore(p) && Greatest(c, 0)
      ensures p > 0 <==> c.Some?
      ensures c.Some? ==> children[c.value].Item() == merged[p - 1] && OthersBefore(p - 1, c.value)
      ensures c.Some? ==> children[c.value].at == Rank(children[c.value].entries, merged, p - 1)
    {
      hide SeekFrom, ILess;
      forall i | 0 <= i < |children| && p == 0
        ensures !children[i].Valid()
      {
        ChildFits(i);
        RankAtStart(children[i].entries, merged);
      }
      if p > 0 {
        var k := HolderOf(p - 1);
        ChildFits(k);
        RankStep(children[k].entries, merged, p - 1);
        assert children[k].Item() == merged[p - 1];
        ChildFits(c.value);
        NotLater(p, c.value);
        var x := children[c.value].Item();
        assert x in Entries(children[c.value].entries);
        var m := PositionIn(merged, x);
        IndexOrder(merged, m, p - 1);
        IndexOrder(merged, p - 1, m);
        OthersStay(p - 1, c.value);
      }
    }

    /** Only the holder's rank changes between two positions. */
    lemma OthersStay(p: nat, c: nat)
      requires Wired() && p < |merged| && c < |children| && merged[p] in children[c].entries
      ensures forall i :: 0 <= i < |children| && i != c ==> Rank(children[i].entries, merged, p + 1) == Rank(children[i].entries, merged, p)
      ensures Rank(children[c].entries, merged, p + 1) == Rank(children[c].entries, merged, p) + 1
    {
      ChildFits(c);
      RankStep(children[c].entries, merged, p);
      forall i | 0 <= i < |children| && i != c
        ensures Rank(children[i].entries, merged, p + 1) == Rank(children[i].entries, merged, p)
      {
        OneHolder(p, i, c);
        ChildFits(i);
        RankStep(children[i].entries, merged, p);
      }
    }

    method SeekToFirst()
      requires Valid()
      modifies this, children
      ensures Valid() && at == 0
    {
      for i := 0 to |children|
        invariant forall j :: 0 <= j < i ==> children[j].at == 0
      {
        children[i].SeekToFirst();
      }
      forall i | 0 <= i < |children|
        ensures Rank(children[i].entries, merged, 0) == 0
      {
        ChildFits(i);
        RankAtStart(children[i].entries, merged);
      }
      FindSmallest(0);
      direction := Forward;
    }

    method SeekToLast()
      requires Valid()
      modifies this, children
      ensures Valid() && at == if merged == [] then 0 else |merged| - 1
    {
      for i := 0 to |children|
        invariant forall j :: 0 <= j < i ==> children[j].at == if children[j].entries == [] then 0 else |children[j].entries| - 1
      {
        children[i].SeekToLast();
      }
      FindLargest(|merged|);
      direction := Reverse;
    }

    method Seek(target: IKey)
      requires Valid()
      modifies this, children
      ensures Valid() && at == SeekFrom(merged, target, 0)
    {
      for i := 0 to |children|
        invariant forall j :: 0 <= j < i ==> children[j].at == SeekFrom(children[j].entries, target, 0)
      {
        children[i].Seek(target);
      }
      ghost var p := SeekFrom(merged, target, 0);
      forall i | 0 <= i < |children|
        ensures SeekFrom(children[i].entries, target, 0) == Rank(children[i].entries, merged, p)
      {
        ChildFits(i);
        SeekIsRank(children[i].entries, merged, target, p);
      }
      FindSmallest(p);
      direction := Forward;
    }

    method Next()
      requires Valid() && at < |merged|
      modifies this, children
      ensures Valid() && at == old(at) + 1
    {
      hide IsMergeOf, Rank, Sorted;
      FaceForward();
      ghost var c := current.value;
      children[current.value].Next();
      SteppedPast(c);
      FindSmallest(at + 1);
    }

    /** Once the current child has moved on, all children stand where the next position of the merge wants them. */
    lemma SteppedPast(c: nat)
      requires Wired() && at < |merged| && c < |children| && children[c].at == Rank(children[c].entries, merged, at + 1)
      requires forall i :: 0 <= i < |children| && i != c ==> children[i].at == Rank(children[i].entries, merged, at + 1)
      ensures AllAfter(at + 1)
    {
    }

    /** Make sure that all other children stand after the current key. */
    method FaceForward()
      requires Valid() && at < |merged|
      modifies this`direction, children
      ensures direction == Forward && Stands() && children[current.value].at == old(children[current.value].at)
      ensures Rank(children[current.value].entries, merged, at + 1) == children[current.value].at + 1
      ensures forall i :: 0 <= i < |children| && i != current.value ==> children[i].at == Rank(children[i].entries, merged, at + 1)
    {
      OthersStay(at, current.value);
      if direction != Forward {
        TurnForward();
        direction := Forward;
      }
    }

    method Prev()
      requires Valid() && at < |merged|
      modifies this, children
      ensures Valid() && at == if old(at) == 0 then |merged| else old(at) - 1
    {
      ghost var p := at;
      if direction != Reverse {
        TurnBackward();
        direction := Reverse;
      }
      children[current.value].Prev();
      FindLargest(p);
    }

    /** All children but the current one step past the current key. */
    method TurnForward()
      requires Valid() && at < |merged|
      modifies children
      ensures children[current.value].at == old(children[current.value].at)
      ensures forall i :: 0 <= i < |children| && i != current.value ==> children[i].at == Rank(children[i].entries, merged, at + 1)
    {
      hide Rank, Sorted, IsMergeOf;
      var key := children[current.value].Item().Ikey();
      for i := 0 to |children|
        invariant children[current.value].at == old(children[current.value].at)
        invariant forall j :: 0 <= j < i && j != current.value ==> children[j].at == Rank(children[j].entries, merged, at + 1)
      {
        if i != current.value {
          StepPast(i, key);
        }
      }
    }

    method StepPast(i: nat, key: IKey)
      requires Wired() && at < |merged| && i < |children| && key == merged[at].Ikey()
      modifies children[i]
      ensures children[i].at == Rank(children[i].entries, merged, at + 1)
    {
      ChildFits(i);
      RankStep(children[i].entries, merged, at);
      children[i].Seek(key);
      SameKey(i);
      if children[i].Valid() && children[i].Item().Ikey() == key {
        children[i].Next();
      }
    }

    lemma SameKey(i: nat)
      requires Wired() && at < |merged| && i < |children|
      requires children[i].at == Rank(children[i].entries, merged, at)
      ensures merged[at] in children[i].entries <==> children[i].Valid() && children[i].Item().Ikey() == merged[at].Ikey()
    {
      ChildFits(i);
      RankStep(children[i].entries, merged, at);
      if children[i].Valid() {
        var x := children[i].Item();
        assert x in Entries(children[i].entries);
        var m := PositionIn(merged, x);
        IndexOrder(merged, m, at);
        IndexOrder(merged, at, m);
      }
    }

    /** All children but the current one step behind the current key. */
    method TurnBackward()
      requires Valid() && at < |merged|
      modifies children
      ensures children[current.value].at == old(children[current.value].at)
      ensures OthersBefore(at, current.value)
    {
      var key := children[current.value].Item().Ikey();
      for i := 0 to |children|
        invariant children[current.value].at == old(children[current.value].at)
        invariant forall j :: 0 <= j < i && j != current.value ==> children[j].at == JustBefore(children[j].entries, merged, at)
      {
        if i != current.value {
          children[i].Seek(key);
          if children[i].Valid() {
            children[i].Prev();
          } else {
            children[i].SeekToLast();
          }
        }
      }
    }
  }

  /** Seeking every child is seeking the merge. */
  lemma SeekIsRank(run: seq<Entry>, merged: seq<Entry>, target: IKey, p: nat)
    requires Sorted(run) && Sorted(merged) && Entries(run) <= Entries(merged) && p == SeekFrom(merged, target, 0)
    ensures SeekFrom(run, target, 0) == Rank(run, merged, p)
  {
    var r := Rank(run, merged, p);
    forall j | 0 <= j < r
      ensures ILess(run[j].Ikey(), target)
    {
      assert run[j] in Entries(run);
      var m := PositionIn(merged, run[j]);
      if p < |merged| { IndexOrder(merged, m, p); }
    }
    if r < |run| {
      IOrder(target, merged[p].Ikey(), run[r].Ikey());
    }
    SeekIsFirst(run, target, r);
  }
}
