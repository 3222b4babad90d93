/** Byte strings and the bytewise order (Slice::compare, BytewiseComparator). */
module Bytes {

  newtype byte = x: int | 0 <= x < 256

  type Slice = seq<byte>

  function Zeros(n: nat): (r: Slice)
    ensures |r| == n
  {
    seq(n, _ => 0)
  }

  /** Length of the longest common prefix of `a` and `b`, counted from offset `i` on. */
  function Common(a: Slice, b: Slice, i: nat): (d: nat)
    requires i <= |a| && i <= |b|
    ensures i <= d <= |a| && d <= |b|
    decreases |a| - i
  {
    if i < |a| && i < |b| && a[i] == b[i] then Common(a, b, i + 1) else i
  }

  lemma {:induction false} CommonIsLongest(a: Slice, b: Slice, i: nat)
    requires i <= |a| && i <= |b|
    ensures forall j :: i <= j < Common(a, b, i) ==> a[j] == b[j]
    ensures Common(a, b, i) < |a| && Common(a, b, i) < |b| ==> a[Common(a, b, i)] != b[Common(a, b, i)]
    decreases |a| - i
  {
    if i < |a| && i < |b| && a[i] == b[i] {
      CommonIsLongest(a, b, i + 1);
    }
  }

  /** memcmp order: the first differing byte decides, and a proper prefix comes first. */
  predicate Less(a: Slice, b: Slice)
  {
    var d := Common(a, b, 0);
    d < |b| && (d == |a| || a[d] < b[d])
  }

  /** `Common` is determined by what it promises. */
  lemma CommonIs(a: Slice, b: Slice, i: nat, d: nat)
    requires i <= d <= |a| && d <= |b|
    requires forall j :: i <= j < d ==> a[j] == b[j]
    requires d < |a| && d < |b| ==> a[d] != b[d]
    ensures Common(a, b, i) == d
  {
    CommonIsLongest(a, b, i);
  }

  lemma LessIrreflexive(a: Slice)
    ensures !Less(a, a)
  {
    CommonIs(a, a, 0, |a|);
  }

  lemma LessTotal(a: Slice, b: Slice)
    ensures a == b || Less(a, b) || Less(b, a)
    ensures !(Less(a, b) && Less(b, a))
  {
    var d := Common(a, b, 0);
    CommonIsLongest(a, b, 0);
    CommonIs(b, a, 0, d);
    if d == |a| == |b| {
      assert a == b;
    }
  }

  lemma LessTransitive(a: Slice, b: Slice, c: Slice)
    requires Less(a, b) && Less(b, c)
    ensures Less(a, c)
  {
    var ab := Common(a, b, 0);
    var bc := Common(b, c, 0);
    CommonIsLongest(a, b, 0);
    CommonIsLongest(b, c, 0);
    var d := if ab < bc then ab else bc;
    assert forall j :: 0 <= j < d ==> a[j] == b[j] && b[j] == c[j];
    CommonIs(a, c, 0, d);
  }

  /** The order facts about three given strings. */
  lemma Order(a: Slice, b: Slice, c: Slice)
    ensures !Less(a, a)
    ensures a == b || Less(a, b) || Less(b, a)
    ensures !(Less(a, b) && Less(b, a))
    ensures Less(a, b) && Less(b, c) ==> Less(a, c)
    ensures !Less(b, a) && Less(b, c) ==> Less(a, c)
    ensures Less(a, b) && !Less(c, b) ==> Less(a, c)
    ensures !Less(b, a) && !Less(c, b) ==> !Less(c, a)
  {
    LessIrreflexive(a);
    LessTotal(a, b);
    LessTotal(b, c);
    LessTotal(a, c);
    if Less(a, b) && Less(b, c) {
      LessTransitive(a, b, c);
    }
    if Less(c, a) {
      if Less(a, b) { LessTransitive(c, a, b); }
      if Less(b, c) { LessTransitive(b, c, a); }
    }
  }

  /** Everything later proofs use about the order, in one place. */
  lemma TotalOrder()
    ensures forall a: Slice :: !Less(a, a)
    ensures forall a: Slice, b: Slice :: a == b || Less(a, b) || Less(b, a)
    ensures forall a: Slice, b: Slice :: !(Less(a, b) && Less(b, a))
    ensures forall a: Slice, b: Slice, c: Slice :: Less(a, b) && Less(b, c) ==> Less(a, c)
  {
    forall a: Slice ensures !Less(a, a) { LessIrreflexive(a); }
    forall a: Slice, b: Slice
      ensures (a == b || Less(a, b) || Less(b, a)) && !(Less(a, b) && Less(b, a))
    { LessTotal(a, b); }
    forall a: Slice, b: Slice, c: Slice | Less(a, b) && Less(b, c)
      ensures Less(a, c)
    { LessTransitive(a, b, c); }
  }
}
