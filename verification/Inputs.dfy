/** Choosing the inputs of a compaction (db/version_set.cc). */
module Inputs {
  import opened Bytes
  import opened InternalKeys
  import opened Version

  /** A user-key bound; None stands for the NULL that means "unbounded". */
  type Bound = Option<Slice>

  predicate Overlaps(f: File, begin: Bound, end: Bound)
  {
    && !(begin.Some? && Less(f.largest.user, begin.value))
    && !(end.Some? && Less(end.value, f.smallest.user))
  }

  predicate InRange(user: Slice, begin: Bound, end: Bound)
  {
    && !(begin.Some? && Less(user, begin.value))
    && !(end.Some? && Less(end.value, user))
  }

  /** `f` does not stick out of the range. */
  predicate Within(f: File, begin: Bound, end: Bound)
  {
    && !(begin.Some? && Less(f.smallest.user, begin.value))
    && !(end.Some? && Less(end.value, f.largest.user))
  }

  /** The range (b, e) includes the range (begin, end). */
  predicate Includes(b: Bound, e: Bound, begin: Bound, end: Bound)
  {
    && (b.Some? ==> begin.Some? && !Less(begin.value, b.value))
    && (e.Some? ==> end.Some? && !Less(e.value, end.value))
  }

  /** The tables that overlap a range, in the order of the level. */
  function Overlapping(files: seq<File>, begin: Bound, end: Bound): (r: seq<File>)
    ensures forall f :: f in r <==> f in files && Overlaps(f, begin, end)
  {
    if files == [] then [] else
      var n := |files| - 1;
      assert files == files[..n] + [files[n]];
      Overlapping(files[..n], begin, end) + if Overlaps(files[n], begin, end) then [files[n]] else []
  }

  lemma OverlappingStep(files: seq<File>, i: nat, begin: Bound, end: Bound)
    requires i < |files|
    ensures Overlapping(files[..i + 1], begin, end) ==
            Overlapping(files[..i], begin, end) + if Overlaps(files[i], begin, end) then [files[i]] else []
  {
    assert files[..i + 1][..i] == files[..i];
  }

  /** No table overlaps the range and sticks out of it. */
  ghost predicate ClosedRange(files: seq<File>, begin: Bound, end: Bound)
  {
    forall f :: f in files && Overlaps(f, begin, end) ==> Within(f, begin, end)
  }

  /** Every user key the range (b, e) adds to (begin, end) is covered by an overlapping table. */
  ghost predicate Bridged(files: seq<File>, begin: Bound, end: Bound, b: Bound, e: Bound)
  {
    forall k :: InRange(k, b, e) && !InRange(k, begin, end) ==> exists f :: f in files && Overlaps(f, b, e) && f.Covers(k)
  }

  /** (b, e) is the smallest closed range that includes (begin, end). */
  ghost predicate LeastClosed(files: seq<File>, begin: Bound, end: Bound, b: Bound, e: Bound)
  {
    forall b', e' :: ClosedRange(files, b', e') && Includes(b', e', begin, end) ==> Includes(b', e', b, e)
  }

  ghost function StickLeft(files: seq<File>, begin: Bound): set<nat>
  {
    set i | 0 <= i < |files| && begin.Some? && Less(files[i].smallest.user, begin.value)
  }

  ghost function StickRight(files: seq<File>, end: Bound): set<nat>
  {
    set i | 0 <= i < |files| && end.Some? && Less(end.value, files[i].largest.user)
  }

  lemma IncludesTransitive(b2: Bound, e2: Bound, b1: Bound, e1: Bound, b0: Bound, e0: Bound)
    requires Includes(b2, e2, b1, e1) && Includes(b1, e1, b0, e0)
    ensures Includes(b2, e2, b0, e0)
  {
    if b2.Some? { Order(b2.value, b1.value, b0.value); }
    if e2.Some? { Order(e0.value, e1.value, e2.value); }
  }

  lemma OverlapsGrows(f: File, b2: Bound, e2: Bound, b1: Bound, e1: Bound)
    requires Includes(b2, e2, b1, e1) && Overlaps(f, b1, e1)
    ensures Overlaps(f, b2, e2)
  {
    if b2.Some? { Order(b2.value, b1.value, f.largest.user); }
    if e2.Some? { Order(f.smallest.user, e1.value, e2.value); }
  }

  /** Extending the begin of a range to a table that sticks out on the left. */
  lemma ExtendLeft(files: seq<File>, begin: Bound, end: Bound, b: Bound, e: Bound, f: File, i: nat)
    requires AllOk(files) && i < |files| && files[i] == f
    requires Overlaps(f, b, e) && b.Some? && Less(f.smallest.user, b.value)
    requires Includes(b, e, begin, end)
    requires Bridged(files, begin, end, b, e) && LeastClosed(files, begin, end, b, e)
    ensures Includes(Some(f.smallest.user), e, begin, end)
    ensures Bridged(files, begin, end, Some(f.smallest.user), e)
    ensures LeastClosed(files, begin, end, Some(f.smallest.user), e)
    ensures StickLeft(files, Some(f.smallest.user)) < StickLeft(files, b)
  {
    var b' := Some(f.smallest.user);
    Order(f.smallest.user, b.value, b.value);
    if e.Some? { Order(e.value, e.value, e.value); }
    assert Includes(b', e, b, e);
    IncludesTransitive(b', e, b, e, begin, end);
    OverlapsGrows(f, b', e, b, e);
    forall k | InRange(k, b', e) && !InRange(k, begin, end)
      ensures exists g :: g in files && Overlaps(g, b', e) && g.Covers(k)
    {
      if InRange(k, b, e) {
        var g :| g in files && Overlaps(g, b, e) && g.Covers(k);
        OverlapsGrows(g, b', e, b, e);
        assert g in files && Overlaps(g, b', e) && g.Covers(k);
      } else {
        Order(k, b.value, f.largest.user);
        Order(f.largest.user, k, b.value);
        assert f in files && Overlaps(f, b', e) && f.Covers(k);
      }
    }
    forall b2, e2 | ClosedRange(files, b2, e2) && Includes(b2, e2, begin, end)
      ensures Includes(b2, e2, b', e)
    {
      OverlapsGrows(f, b2, e2, b, e);
      assert Within(f, b2, e2);
    }
    forall j | j in StickLeft(files, b')
      ensures j in StickLeft(files, b)
    {
      Order(files[j].smallest.user, f.smallest.user, b.value);
    }
    assert i in StickLeft(files, b) && i !in StickLeft(files, b');
  }

  lemma ExtendRight(files: seq<File>, begin: Bound, end: Bound, b: Bound, e: Bound, f: File, i: nat)
    requires AllOk(files) && i < |files| && files[i] == f
    requires Overlaps(f, b, e) && e.Some? && Less(e.value, f.largest.user)
    requires Includes(b, e, begin, end)
    requires Bridged(files, begin, end, b, e) && LeastClosed(files, begin, end, b, e)
    ensures Includes(b, Some(f.largest.user), begin, end)
    ensures Bridged(files, begin, end, b, Some(f.largest.user))
    ensures LeastClosed(files, begin, end, b, Some(f.largest.user))
    ensures StickRight(files, Some(f.largest.user)) < StickRight(files, e)
  {
    var e' := Some(f.largest.user);
    Order(e.value, f.largest.user, f.largest.user);
    if b.Some? { Order(b.value, b.value, b.value); }
    assert Includes(b, e', b, e);
    IncludesTransitive(b, e', b, e, begin, end);
    OverlapsGrows(f, b, e', b, e);
    forall k | InRange(k, b, e') && !InRange(k, begin, end)
      ensures exists g :: g in files && Overlaps(g, b, e') && g.Covers(k)
    {
      if InRange(k, b, e) {
        var g :| g in files && Overlaps(g, b, e) && g.Covers(k);
        OverlapsGrows(g, b, e', b, e);
        assert g in files && Overlaps(g, b, e') && g.Covers(k);
      } else {
        Order(f.smallest.user, e.value, k);
        Order(e.value, k, f.smallest.user);
        assert f in files && Overlaps(f, b, e') && f.Covers(k);
      }
    }
    forall b2, e2 | ClosedRange(files, b2, e2) && Includes(b2, e2, begin, end)
      ensures Includes(b2, e2, b, e')
    {
      OverlapsGrows(f, b2, e2, b, e);
      assert Within(f, b2, e2);
    }
    forall j | j in StickRight(files, e')
      ensures j in StickRight(files, e)
    {
      Order(e.value, f.largest.user, files[j].largest.user);
    }
    assert i in StickRight(files, e);
    Order(f.largest.user, f.largest.user, f.largest.user);
    assert i !in StickRight(files, e');
  }

  /**
   * Version::GetOverlappingInputs. On level 0 the range grows with every table that sticks
   * out and the scan starts again; `b` and `e` are the range it ends with.
   */
  method GetOverlappingInputs(files: seq<File>, level0: bool, begin: Bound, end: Bound)
    returns (inputs: seq<File>, b: Bound, e: Bound)
    requires AllOk(files)
    ensures inputs == Overlapping(files, b, e)
    ensures Includes(b, e, begin, end)
    ensures !level0 ==> b == begin && e == end
    ensures level0 ==> ClosedRange(files, b, e)
    ensures LeastClosed(files, begin, end, b, e) && Bridged(files, begin, end, b, e)
  {
    hide Less, AllOk, StickLeft, StickRight;
    inputs, b, e := [], begin, end;
    if b.Some? { Order(b.value, b.value, b.value); }
    if e.Some? { Order(e.value, e.value, e.value); }
    var i := 0;
    while i < |files|
      invariant i <= |files|
      invariant inputs == Overlapping(files[..i], b, e)
      invariant (begin.Some? <==> b.Some?) && (end.Some? <==> e.Some?)
      invariant Includes(b, e, begin, end)
      invariant !level0 ==> b == begin && e == end
      invariant level0 ==> forall f :: f in inputs ==> Within(f, b, e)
      invariant LeastClosed(files, begin, end, b, e) && Bridged(files, begin, end, b, e)
      decreases StickLeft(files, b), StickRight(files, e), |files| - i
    {
      var f := files[i];
      OverlappingStep(files, i, b, e);
      i := i + 1;
      if begin.Some? && Less(f.largest.user, b.value) {
      } else if end.Some? && Less(e.value, f.smallest.user) {
      } else {
        inputs := inputs + [f];
        if level0 {
          if begin.Some? && Less(f.smallest.user, b.value) {
            ExtendLeft(files, begin, end, b, e, f, i - 1);
            b := Some(f.smallest.user);
            inputs := [];
            i := 0;
          } else if end.Some? && Less(e.value, f.largest.user) {
            ExtendRight(files, begin, end, b, e, f, i - 1);
            e := Some(f.largest.user);
            inputs := [];
            i := 0;
          }
        }
      }
    }
    assert files[..|files|] == files;
  }

  /** Version::OverlapInLevel and SomeFileOverlapsRange. */
  method SomeFileOverlapsRange(files: seq<File>, disjointSorted: bool, begin: Bound, end: Bound) returns (r: bool)
    requires AllOk(files)
    requires disjointSorted ==> KeySorted(files)
    ensures r <==> exists f :: f in files && Overlaps(f, begin, end)
  {
    if !disjointSorted {
      for i := 0 to |files|
        invariant forall j :: 0 <= j < i ==> !Overlaps(files[j], begin, end)
      {
        var f := files[i];
        if (begin.Some? && Less(f.largest.user, begin.value)) || (end.Some? && Less(end.value, f.smallest.user)) {
        } else {
          assert f in files && Overlaps(f, begin, end);
          return true;
        }
      }
      return false;
    }
    var index := 0;
    if begin.Some? {
      index := FindFile(files, LookupKey(begin.value, MAX_SEQUENCE));
      forall i | 0 <= i < |files|
        ensures i < index <==> Less(files[i].largest.user, begin.value)
      {
        Order(begin.value, files[i].largest.user, begin.value);
      }
    }
    if index >= |files| {
      return false;
    }
    r := !(end.Some? && Less(end.value, files[index].smallest.user));
    if r {
      assert files[index] in files && Overlaps(files[index], begin, end);
    } else {
      forall i | index <= i < |files|
        ensures Less(end.value, files[i].smallest.user)
      {
        if index < i { SmallestIncrease(files, index, i); }
        Order(end.value, files[index].smallest.user, files[i].smallest.user);
      }
    }
  }

  lemma SmallestIncrease(files: seq<File>, i: nat, j: nat)
    requires AllOk(files) && KeySorted(files) && i < j < |files|
    ensures ILess(files[i].smallest, files[j].smallest)
    ensures !Less(files[j].smallest.user, files[i].smallest.user)
  {
    KeysInRange(files[i], |files[i].run| - 1);
    IOrder(files[i].smallest, files[i].largest, files[j].smallest);
    Order(files[i].smallest.user, files[j].smallest.user, files[i].smallest.user);
  }

  function TotalFileSize(files: seq<File>): nat
  {
    if files == [] then 0 else TotalFileSize(files[..|files| - 1]) + files[|files| - 1].size
  }

  /** config::kMaxMemCompactLevel. */
  const MAX_MEM_COMPACT_LEVEL := 2

  ghost predicate OverlapInLevel(v: Levels, level: nat, begin: Bound, end: Bound)
    requires level < |v|
  {
    exists f :: f in v[level] && Overlaps(f, begin, end)
  }

  /** A new table may not be pushed from `level` to the next one. */
  ghost predicate Blocked(v: Levels, level: nat, begin: Bound, end: Bound, maxGrandparentBytes: nat)
    requires level + 2 < |v|
  {
    || OverlapInLevel(v, level + 1, begin, end)
    || TotalFileSize(Overlapping(v[level + 2], begin, end)) > maxGrandparentBytes
  }

  /** The level a flushed memtable goes to: as deep as possible without passing over its keys. */
  method PickLevelForMemTableOutput(v: Levels, smallest: Slice, largest: Slice, maxGrandparentBytes: nat)
    returns (level: nat)
    requires FilesOk(v)
    ensures level <= MAX_MEM_COMPACT_LEVEL
    ensures 0 < level ==> forall l :: 0 <= l <= level ==> !OverlapInLevel(v, l, Some(smallest), Some(largest))
    ensures level < MAX_MEM_COMPACT_LEVEL ==>
              || (level == 0 && OverlapInLevel(v, 0, Some(smallest), Some(largest)))
              || Blocked(v, level, Some(smallest), Some(largest), maxGrandparentBytes)
  {
    hide FilesOk, AllOk, KeySorted, Overlaps, Overlapping, LeastClosed, Bridged, ClosedRange;
    AllLevels(v);
    level := 0;
    var begin, end := Some(smallest), Some(largest);
    var overlaps := SomeFileOverlapsRange(v[0], false, begin, end);
    if !overlaps {
      while level < MAX_MEM_COMPACT_LEVEL
        invariant level <= MAX_MEM_COMPACT_LEVEL
        invariant forall l :: 0 <= l <= level ==> !OverlapInLevel(v, l, begin, end)
      {
        overlaps := SomeFileOverlapsRange(v[level + 1], true, begin, end);
        if overlaps {
          break;
        }
        if level + 2 < NUM_LEVELS {
          var grandparents, _, _ := GetOverlappingInputs(v[level + 2], false, begin, end);
          if TotalFileSize(grandparents) > maxGrandparentBytes {
            break;
          }
        }
        level := level + 1;
      }
    }
  }

  /** The minimal internal-key range of some tables. */
  method GetRange(inputs: seq<File>) returns (smallest: IKey, largest: IKey)
    requires inputs != []
    ensures IsRange(inputs, smallest, largest)
  {
    smallest, largest := inputs[0].smallest, inputs[0].largest;
    IOrder(smallest, smallest, smallest);
    IOrder(largest, largest, largest);
    for i := 1 to |inputs|
      invariant IsRange(inputs[..i], smallest, largest)
    {
      var f := inputs[i];
      var s, l := smallest, largest;
      if ILess(f.smallest, smallest) { smallest := f.smallest; }
      if ILess(largest, f.largest) { largest := f.largest; }
      RangeStep(inputs, i, s, l, smallest, largest);
    }
    assert inputs[..|inputs|] == inputs;
  }

  ghost predicate IsRange(inputs: seq<File>, smallest: IKey, largest: IKey)
  {
    && (forall f :: f in inputs ==> !ILess(f.smallest, smallest) && !ILess(largest, f.largest))
    && (exists f :: f in inputs && f.smallest == smallest)
    && (exists f :: f in inputs && f.largest == largest)
  }

  lemma RangeStep(inputs: seq<File>, i: nat, s: IKey, l: IKey, s': IKey, l': IKey)
    requires 0 < i < |inputs| && IsRange(inputs[..i], s, l)
    requires s' == if ILess(inputs[i].smallest, s) then inputs[i].smallest else s
    requires l' == if ILess(l, inputs[i].largest) then inputs[i].largest else l
    ensures IsRange(inputs[..i + 1], s', l')
  {
    hide ILess;
    var f := inputs[i];
    var more := inputs[..i + 1];
    assert more == inputs[..i] + [f];
    assert f in more;
    forall g | g in more
      ensures !ILess(g.smallest, s') && !ILess(l', g.largest)
    {
      IOrder(f.smallest, s, g.smallest);
      IOrder(g.largest, l, f.largest);
      IOrder(s', s', s');
      IOrder(l', l', l');
      IOrder(g.smallest, s', s);
      IOrder(l, l', g.largest);
    }
    var a :| a in inputs[..i] && a.smallest == s;
    var b :| b in inputs[..i] && b.largest == l;
    assert a in more && b in more;
  }
}
