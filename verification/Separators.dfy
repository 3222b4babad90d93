/** Short keys between keys (util/comparator.cc, db/dbformat.cc), for the index of a table. */
module Separators {
  import opened Bytes
  import opened InternalKeys

  /** The order of two strings that first differ at position `d`. */
  lemma DecidedAt(a: Slice, b: Slice, d: nat)
    requires d < |a| && d < |b| && a[..d] == b[..d] && a[d] != b[d]
    ensures Less(a, b) <==> a[d] < b[d]
  {
    assert forall j :: 0 <= j < d ==> a[j] == a[..d][j] == b[..d][j] == b[j];
    CommonIs(a, b, 0, d);
  }

  /** BytewiseComparatorImpl::FindShortestSeparator. */
  method FindShortestSeparator(start: Slice, limit: Slice) returns (r: Slice)
    ensures Less(start, limit) ==> !Less(r, start) && Less(r, limit)
    ensures |r| <= |start| && (start == limit ==> r == start)
  {
    r := start;
    LessIrreflexive(start);
    var minLength := if |start| < |limit| then |start| else |limit|;
    var diffIndex := 0;
    while diffIndex < minLength && start[diffIndex] == limit[diffIndex]
      invariant diffIndex <= minLength && start[..diffIndex] == limit[..diffIndex]
    {
      diffIndex := diffIndex + 1;
    }
    if diffIndex >= minLength {
    } else {
      var diffByte := start[diffIndex];
      if diffByte < 0xff && diffByte + 1 < limit[diffIndex] {
        r := start[..diffIndex] + [diffByte + 1];
        DecidedAt(start, r, diffIndex);
        LessTotal(start, r);
        DecidedAt(r, limit, diffIndex);
      }
    }
  }

  /** BytewiseComparatorImpl::FindShortSuccessor. */
  method FindShortSuccessor(key: Slice) returns (r: Slice)
    ensures !Less(r, key) && |r| <= |key|
  {
    LessIrreflexive(key);
    for i := 0 to |key| {
      var b := key[i];
      if b != 0xff {
        r := key[..i] + [b + 1];
        DecidedAt(r, key, i);
        return;
      }
    }
    r := key;
  }

  const SEEK_TAG: nat := Tag(MAX_SEQUENCE, Value)

  /** InternalKeyComparator::FindShortestSeparator: also, a user key that is new lies strictly between the two. */
  method FindInternalSeparator(start: IKey, limit: IKey) returns (r: IKey)
    ensures ILess(start, limit) ==> !ILess(r, start) && ILess(r, limit)
    ensures r == start || (ILess(start, limit) ==> Less(start.user, r.user) && Less(r.user, limit.user))
  {
    var tmp := FindShortestSeparator(start.user, limit.user);
    Order(start.user, tmp, limit.user);
    Order(start.user, limit.user, start.user);
    IOrder(start, start, start);
    if |tmp| < |start.user| && Less(start.user, tmp) {
      r := IKey(tmp, SEEK_TAG);
    } else {
      r := start;
    }
  }

  /** InternalKeyComparator::FindShortSuccessor. */
  method FindInternalSuccessor(key: IKey) returns (r: IKey)
    ensures !ILess(r, key)
    ensures r == key || Less(key.user, r.user)
  {
    var tmp := FindShortSuccessor(key.user);
    Order(key.user, tmp, key.user);
    IOrder(key, key, key);
    if |tmp| < |key.user| && Less(key.user, tmp) {
      r := IKey(tmp, SEEK_TAG);
    } else {
      r := key;
    }
  }
}
