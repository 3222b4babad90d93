/** The specification: the sequence of all writes, read as a map at a sequence number. */
module History {
  import opened Bytes
  import opened InternalKeys

  /** The write at position `i` carries sequence number `i + 1`. */
  ghost predicate Numbered(h: seq<Entry>)
  {
    forall i :: 0 <= i < |h| ==> h[i].seqno == i + 1
  }

  /** The user-visible contents after the writes `h`. */
  function Contents(h: seq<Entry>): map<Slice, Slice>
  {
    if h == [] then map[] else
      var before := Contents(h[..|h| - 1]);
      var e := h[|h| - 1];
      if e.kind.Value? then before[e.key := e.value] else before - {e.key}
  }

  /** What a read of `key` at `snapshot` has to return. */
  function Read(h: seq<Entry>, key: Slice, snapshot: nat): Option<Slice>
  {
    var contents := Contents(h[..if snapshot < |h| then snapshot else |h|]);
    if key in contents then Some(contents[key]) else None
  }

  lemma DistinctHistory(h: seq<Entry>)
    requires Numbered(h)
    ensures Distinct(Entries(h))
  {
    forall x, y | x in Entries(h) && y in Entries(h) && x.seqno == y.seqno
      ensures x == y
    {
      var i :| 0 <= i < |h| && h[i] == x;
      var j :| 0 <= j < |h| && h[j] == y;
    }
  }

  /** The newest visible entry says what the map says. */
  lemma {:induction false} NewestIsContents(h: seq<Entry>, key: Slice, n: nat, found: Option<Entry>)
    requires Numbered(h) && n <= |h| && Sees(Entries(h), key, n, found)
    ensures Outcome(found) == (if key in Contents(h[..n]) then Some(Contents(h[..n])[key]) else None)
  {
    if 0 < n {
      var e := h[n - 1];
      assert h[..n][..n - 1] == h[..n - 1];
      assert e in Entries(h);
      if e.key == key {
        DistinctHistory(h);
        assert found == Some(e);
      } else {
        forall x | x in Entries(h) && x.key == key
          ensures x.seqno <= n ==> x.seqno <= n - 1
        {
          var i :| 0 <= i < |h| && h[i] == x;
        }
        NewestIsContents(h, key, n - 1, found);
      }
    } else {
      forall x | x in Entries(h)
        ensures x.seqno > 0
      {
        var i :| 0 <= i < |h| && h[i] == x;
      }
    }
  }

  lemma SeesHistory(h: seq<Entry>, key: Slice, snapshot: nat, found: Option<Entry>)
    requires Numbered(h) && Sees(Entries(h), key, snapshot, found)
    ensures Outcome(found) == Read(h, key, snapshot)
  {
    var n := if snapshot < |h| then snapshot else |h|;
    forall x | x in Entries(h)
      ensures x.seqno <= |h|
    {
      var i :| 0 <= i < |h| && h[i] == x;
    }
    NewestIsContents(h, key, n, found);
  }

  /** All of `newer` was written after all of `older`. */
  ghost predicate After(newer: set<Entry>, older: set<Entry>)
  {
    forall e, x :: e in newer && x in older ==> e.seqno > x.seqno
  }

  /** A search that goes through a newer set first, and then through an older one. */
  lemma Layered(newer: set<Entry>, older: set<Entry>, key: Slice, snapshot: nat, first: Option<Entry>, second: Option<Entry>)
    requires After(newer, older)
    requires Sees(newer, key, snapshot, first) && Sees(older, key, snapshot, second)
    ensures Sees(newer + older, key, snapshot, if first.Some? then first else second)
  {
  }

  /** Adding the same newer entries on both sides keeps the reads in agreement. */
  lemma AgreeWithNewer(stored: set<Entry>, all: set<Entry>, floor: nat, newer: set<Entry>)
    requires ReadsAgree(stored, all, floor) && stored <= all && After(newer, all) && Distinct(newer + all)
    ensures ReadsAgree(newer + stored, newer + all, floor)
  {
    forall key, snapshot, r, r' | floor <= snapshot && Sees(newer + stored, key, snapshot, r) && Sees(newer + all, key, snapshot, r')
      ensures Outcome(r) == Outcome(r')
    {
      var first := SomeAnswer(newer, key, snapshot);
      var a := SomeAnswer(stored, key, snapshot);
      var b := SomeAnswer(all, key, snapshot);
      Layered(newer, stored, key, snapshot, first, a);
      Layered(newer, all, key, snapshot, first, b);
      SameAnswer(newer + stored, key, snapshot, r, if first.Some? then first else a);
      SameAnswer(newer + all, key, snapshot, r', if first.Some? then first else b);
    }
  }
}
