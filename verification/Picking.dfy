/** VersionSet::PickCompaction and SetupOtherInputs (db/version_set.cc). */
module Picking {
  import opened Bytes
  import opened InternalKeys
  import opened Version
  import opened Inputs

  /** `user` lies in the smallest user-key interval that holds all of `files`. */
  ghost predicate InHull(files: seq<File>, user: Slice)
  {
    exists f, g :: f in files && g in files && !Less(user, f.smallest.user) && !Less(g.largest.user, user)
  }

  /** No gap: every user key of the hull is covered by one of the tables. */
  ghost predicate Connected(files: seq<File>)
  {
    forall k :: InHull(files, k) ==> exists h :: h in files && h.Covers(k)
  }

  ghost predicate TouchesHull(files: seq<File>, h: File)
  {
    exists f, g :: f in files && g in files && !Less(h.largest.user, f.smallest.user) && !Less(g.largest.user, h.smallest.user)
  }

  /** What a compaction of `level` may rely on about its inputs. */
  ghost predicate GoodInputs(v: Levels, level: nat, in0: seq<File>, in1: seq<File>)
  {
    && level + 1 < |v| && in0 != []
    && (forall f :: f in in0 ==> f in v[level])
    && (forall f :: f in in1 <==> f in v[level + 1] && TouchesHull(in0, f))
    && (level == 0 ==> forall f :: f in v[0] && TouchesHull(in0, f) ==> f in in0)
    && Connected(in0 + in1)
  }

  lemma MovedIsInput(v: Levels, level: nat, f: File)
    requires GoodInputs(v, level, [f], [])
    ensures level + 1 < |v| && In(v, level, f)
  {
    assert f in [f];
  }

  lemma RangeIsHull(files: seq<File>, lo: IKey, hi: IKey)
    requires IsRange(files, lo, hi)
    ensures forall k :: InHull(files, k) <==> InRange(k, Some(lo.user), Some(hi.user))
    ensures forall h :: TouchesHull(files, h) <==> Overlaps(h, Some(lo.user), Some(hi.user))
  {
    var a :| a in files && a.smallest == lo;
    var b :| b in files && b.largest == hi;
    forall k
      ensures InHull(files, k) <==> InRange(k, Some(lo.user), Some(hi.user))
    {
      if InHull(files, k) {
        var f, g :| f in files && g in files && !Less(k, f.smallest.user) && !Less(g.largest.user, k);
        Order(lo.user, f.smallest.user, k);
        Order(k, g.largest.user, hi.user);
      }
    }
    forall h
      ensures TouchesHull(files, h) <==> Overlaps(h, Some(lo.user), Some(hi.user))
    {
      if TouchesHull(files, h) {
        var f, g :| f in files && g in files && !Less(h.largest.user, f.smallest.user) && !Less(g.largest.user, h.smallest.user);
        Order(lo.user, f.smallest.user, h.largest.user);
        Order(h.smallest.user, g.largest.user, hi.user);
      }
    }
  }

  lemma LeftEnd(a: seq<File>, lo: IKey, hi: IKey, more: seq<File>, b: Bound, e: Bound, f: File, k: Slice)
    requires forall h :: h in a ==> !ILess(h.smallest, lo)
    requires Includes(b, e, Some(lo.user), Some(hi.user))
    requires forall h :: h in more ==> Overlaps(h, b, e)
    requires f in a || f in more
    requires b.Some? && Less(k, b.value) && !Less(k, f.smallest.user)
    ensures f.Covers(k)
  {
    Order(lo.user, f.smallest.user, k);
    Order(k, b.value, lo.user);
    Order(k, b.value, f.largest.user);
    Order(f.largest.user, k, b.value);
  }

  lemma RightEnd(a: seq<File>, lo: IKey, hi: IKey, more: seq<File>, b: Bound, e: Bound, g: File, k: Slice)
    requires forall h :: h in a ==> !ILess(hi, h.largest)
    requires Includes(b, e, Some(lo.user), Some(hi.user))
    requires forall h :: h in more ==> Overlaps(h, b, e)
    requires g in a || g in more
    requires e.Some? && Less(e.value, k) && !Less(g.largest.user, k)
    ensures g.Covers(k)
  {
    Order(k, g.largest.user, hi.user);
    Order(hi.user, e.value, k);
    Order(g.smallest.user, e.value, k);
    Order(e.value, k, g.smallest.user);
  }

  /** A connected set stays connected when a whole bridged range is added to it. */
  lemma ConnectedGrows(a: seq<File>, lo: IKey, hi: IKey, files: seq<File>, b: Bound, e: Bound)
    requires Connected(a) && IsRange(a, lo, hi)
    requires Includes(b, e, Some(lo.user), Some(hi.user))
    requires Bridged(files, Some(lo.user), Some(hi.user), b, e)
    ensures Connected(a + Overlapping(files, b, e))
  {
    var more := Overlapping(files, b, e);
    var all := a + more;
    RangeIsHull(a, lo, hi);
    forall k | InHull(all, k)
      ensures exists h :: h in all && h.Covers(k)
    {
      var f, g :| f in all && g in all && !Less(k, f.smallest.user) && !Less(g.largest.user, k);
      if InRange(k, Some(lo.user), Some(hi.user)) {
        var h :| h in a && h.Covers(k);
        assert h in all;
      } else if InRange(k, b, e) {
        var h :| h in files && Overlaps(h, b, e) && h.Covers(k);
        assert h in more;
        assert h in all;
      } else if b.Some? && Less(k, b.value) {
        LeftEnd(a, lo, hi, more, b, e, f, k);
      } else {
        RightEnd(a, lo, hi, more, b, e, g, k);
      }
    }
  }

  lemma ConnectedSame(a: seq<File>, b: seq<File>)
    requires Connected(a) && forall f :: f in a <==> f in b
    ensures Connected(b)
  {
    forall k | InHull(b, k)
      ensures exists h :: h in b && h.Covers(k)
    {
      var f, g :| f in b && g in b && !Less(k, f.smallest.user) && !Less(g.largest.user, k);
      assert f in a && g in a;
      assert InHull(a, k);
      var h :| h in a && h.Covers(k);
      assert h in b;
    }
  }

  lemma ConnectedOne(f: File)
    requires FileOk(f)
    ensures Connected([f]) && IsRange([f], f.smallest, f.largest)
  {
    IOrder(f.smallest, f.smallest, f.smallest);
    IOrder(f.largest, f.largest, f.largest);
    assert f in [f];
  }

  /** A wider range picks up as many tables only if it picks up the same ones. */
  lemma {:induction false} SameCountSameTables(files: seq<File>, b: Bound, e: Bound, b': Bound, e': Bound)
    requires Includes(b', e', b, e)
    ensures |Overlapping(files, b, e)| <= |Overlapping(files, b', e')|
    ensures |Overlapping(files, b, e)| == |Overlapping(files, b', e')| ==> Overlapping(files, b, e) == Overlapping(files, b', e')
  {
    if files != [] {
      var n := |files| - 1;
      SameCountSameTables(files[..n], b, e, b', e');
      if Overlaps(files[n], b, e) {
        OverlapsGrows(files[n], b', e', b, e);
      }
    }
  }

  lemma RangeGrows(small: seq<File>, lo: IKey, hi: IKey, big: seq<File>, lo': IKey, hi': IKey)
    requires IsRange(small, lo, hi) && IsRange(big, lo', hi')
    requires forall f :: f in small ==> f in big
    ensures Includes(Some(lo'.user), Some(hi'.user), Some(lo.user), Some(hi.user))
  {
    var a :| a in small && a.smallest == lo;
    var b :| b in small && b.largest == hi;
  }

  /** A closed level-0 range holds every table that touches the hull of what it holds. */
  lemma ClosedHull(files: seq<File>, b: Bound, e: Bound)
    requires ClosedRange(files, b, e)
    ensures forall h :: h in files && TouchesHull(Overlapping(files, b, e), h) ==> h in Overlapping(files, b, e)
  {
    var inputs := Overlapping(files, b, e);
    forall h | h in files && TouchesHull(inputs, h)
      ensures h in inputs
    {
      var f, g :| f in inputs && g in inputs && !Less(h.largest.user, f.smallest.user) && !Less(g.largest.user, h.smallest.user);
      assert Within(f, b, e) && Within(g, b, e);
      if b.Some? { Order(b.value, f.smallest.user, h.largest.user); }
      if e.Some? { Order(h.smallest.user, g.largest.user, e.value); }
    }
  }

  /** Compaction: the tables of `level` and of `level + 1` that are merged. */
  datatype Job = Job(level: nat, in0: seq<File>, in1: seq<File>, grandparents: seq<File>)

  method SetupOtherInputs(v: Levels, level: nat, in0: seq<File>, expandLimit: nat) returns (c: Job)
    requires FilesOk(v) && level + 1 < |v| && in0 != []
    requires forall f :: f in in0 ==> f in v[level]
    requires level == 0 ==> forall f :: f in v[0] && TouchesHull(in0, f) ==> f in in0
    requires Connected(in0)
    ensures c.level == level && GoodInputs(v, level, c.in0, c.in1)
    ensures forall f :: f in in0 ==> f in c.in0
    ensures forall h :: h in c.grandparents <==> level + 2 < |v| && h in v[level + 2] && TouchesHull(c.in0 + c.in1, h)
  {
    var inputs0 := in0;
    var smallest, largest := GetRange(inputs0);
    RangeIsHull(inputs0, smallest, largest);
    var inputs1, b1, e1 := GetOverlappingInputs(v[level + 1], false, Some(smallest.user), Some(largest.user));
    ConnectedGrows(inputs0, smallest, largest, v[level + 1], b1, e1);
    var allStart, allLimit := GetRange(inputs0 + inputs1);
    if inputs1 != [] {
      var expanded0, b0, e0 := GetOverlappingInputs(v[level], level == 0, Some(allStart.user), Some(allLimit.user));
      if |expanded0| > |inputs0| && TotalFileSize(inputs1) + TotalFileSize(expanded0) < expandLimit {
        var newStart, newLimit := GetRange(expanded0);
        var expanded1, _, _ := GetOverlappingInputs(v[level + 1], false, Some(newStart.user), Some(newLimit.user));
        if |expanded1| == |inputs1| {
          Expansion(v, level, inputs0, inputs1, allStart, allLimit, b0, e0, newStart, newLimit);
          SameCountSameTables(v[level + 1], b1, e1, Some(newStart.user), Some(newLimit.user));
          RangeIsHull(expanded0, newStart, newLimit);
          inputs0, inputs1 := expanded0, expanded1;
          allStart, allLimit := GetRange(inputs0 + inputs1);
        }
      }
    }
    var grandparents := [];
    RangeIsHull(inputs0 + inputs1, allStart, allLimit);
    if level + 2 < NUM_LEVELS {
      var b2, e2;
      grandparents, b2, e2 := GetOverlappingInputs(v[level + 2], false, Some(allStart.user), Some(allLimit.user));
    }
    c := Job(level, inputs0, inputs1, grandparents);
  }

  /** The grown set of `level` tables keeps everything the first choice had. */
  lemma Expansion(v: Levels, level: nat, in0: seq<File>, in1: seq<File>, lo: IKey, hi: IKey, b: Bound, e: Bound,
                  newLo: IKey, newHi: IKey)
    requires FilesOk(v) && level + 1 < |v| && in0 != []
    requires forall f :: f in in0 ==> f in v[level]
    requires Connected(in0 + in1) && IsRange(in0 + in1, lo, hi)
    requires Includes(b, e, Some(lo.user), Some(hi.user))
    requires Bridged(v[level], Some(lo.user), Some(hi.user), b, e)
    requires level == 0 ==> ClosedRange(v[level], b, e)
    requires IsRange(Overlapping(v[level], b, e), newLo, newHi)
    ensures forall f :: f in in0 ==> f in Overlapping(v[level], b, e)
    ensures Connected(Overlapping(v[level], b, e) + in1)
    ensures level == 0 ==> forall f :: f in v[0] && TouchesHull(Overlapping(v[level], b, e), f) ==> f in Overlapping(v[level], b, e)
    ensures forall s, l :: IsRange(in0, s, l) ==> Includes(Some(newLo.user), Some(newHi.user), Some(s.user), Some(l.user))
  {
    var expanded := Overlapping(v[level], b, e);
    forall f | f in in0
      ensures f in expanded
    {
      assert f in in0 + in1;
      FileOrdered(f, v, level);
      Order(lo.user, f.smallest.user, f.largest.user);
      Order(f.smallest.user, f.largest.user, hi.user);
      OverlapsGrows(f, b, e, Some(lo.user), Some(hi.user));
    }
    ConnectedGrows(in0 + in1, lo, hi, v[level], b, e);
    ConnectedSame((in0 + in1) + expanded, expanded + in1);
    if level == 0 {
      ClosedHull(v[0], b, e);
    }
    forall s, l | IsRange(in0, s, l)
      ensures Includes(Some(newLo.user), Some(newHi.user), Some(s.user), Some(l.user))
    {
      RangeGrows(in0, s, l, expanded, newLo, newHi);
    }
  }

  lemma FileOrdered(f: File, v: Levels, level: nat)
    requires FilesOk(v) && level < |v| && f in v[level]
    ensures FileOk(f) && !Less(f.largest.user, f.smallest.user)
  {
    var i :| 0 <= i < |v[level]| && v[level][i] == f;
    KeysInRange(f, 0);
  }

  /** PickCompaction, from whichever table of whichever level the scores point at. */
  method PickCompaction(v: Levels, level: nat, i: nat, expandLimit: nat) returns (c: Job)
    requires FilesOk(v) && level + 1 < |v| && i < |v[level]|
    ensures c.level == level && GoodInputs(v, level, c.in0, c.in1)
    ensures v[level][i] in c.in0
    ensures forall h :: h in c.grandparents <==> level + 2 < |v| && h in v[level + 2] && TouchesHull(c.in0 + c.in1, h)
  {
    var f := v[level][i];
    FileOrdered(f, v, level);
    var in0 := [f];
    ConnectedOne(f);
    if level == 0 {
      var smallest, largest := GetRange(in0);
      RangeIsHull(in0, smallest, largest);
      var b, e;
      in0, b, e := GetOverlappingInputs(v[0], true, Some(smallest.user), Some(largest.user));
      OverlapsGrows(f, b, e, Some(smallest.user), Some(largest.user));
      ConnectedGrows([f], smallest, largest, v[0], b, e);
      ConnectedSame([f] + in0, in0);
      ClosedHull(v[0], b, e);
    }
    c := SetupOtherInputs(v, level, in0, expandLimit);
  }
}
