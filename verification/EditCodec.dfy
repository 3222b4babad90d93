/** VersionEdit: manifest records (db/version_edit.cc). */
module EditCodec {
  import opened Bytes
  import opened InternalKeys
  import opened Coding
  import opened Version

  /** One tagged field of a record. Internal keys stand in their encoded form. */
  datatype Field =
    | Comparator(name: Slice) | LogNumber(n: nat) | PrevLogNumber(n: nat) | NextFile(n: nat) | LastSequence(n: nat)
    | Pointer(level: nat, key: Slice)
    | Deleted(level: nat, n: nat)
    | Added(level: nat, n: nat, size: nat, smallest: Slice, largest: Slice)

  predicate FieldOk(f: Field)
  {
    match f
    case Comparator(name) => |name| < TWO_32
    case LogNumber(n) => n < TWO_64
    case PrevLogNumber(n) => n < TWO_64
    case NextFile(n) => n < TWO_64
    case LastSequence(n) => n < TWO_64
    case Pointer(level, key) => level < NUM_LEVELS && |key| < TWO_32
    case Deleted(level, n) => level < NUM_LEVELS && n < TWO_64
    case Added(level, n, size, smallest, largest) =>
      level < NUM_LEVELS && n < TWO_64 && size < TWO_64 && |smallest| < TWO_32 && |largest| < TWO_32
  }

  function FieldTag(f: Field): nat
  {
    match f
    case Comparator(_) => 1
    case LogNumber(_) => 2
    case NextFile(_) => 3
    case LastSequence(_) => 4
    case Pointer(_, _) => 5
    case Deleted(_, _) => 6
    case Added(_, _, _, _, _) => 7
    case PrevLogNumber(_) => 9
  }

  function FieldBody(f: Field): Slice
  {
    match f
    case Comparator(name) => LengthPrefixed(name)
    case LogNumber(n) => VarintBytes(n)
    case PrevLogNumber(n) => VarintBytes(n)
    case NextFile(n) => VarintBytes(n)
    case LastSequence(n) => VarintBytes(n)
    case Pointer(level, key) => VarintBytes(level) + LengthPrefixed(key)
    case Deleted(level, n) => VarintBytes(level) + VarintBytes(n)
    case Added(level, n, size, smallest, largest) =>
      VarintBytes(level) + VarintBytes(n) + VarintBytes(size) + LengthPrefixed(smallest) + LengthPrefixed(largest)
  }

  function FieldsBytes(fields: seq<Field>): Slice
  {
    if fields == [] then [] else
      FieldsBytes(fields[..|fields| - 1]) + VarintBytes(FieldTag(fields[|fields| - 1])) + FieldBody(fields[|fields| - 1])
  }

  // ------------------------------------------------------------------ reading

  function GetLevel(s: Slice): Option<(nat, Slice)>
  {
    match Varint(s, 5, TWO_32)
    case None => None
    case Some((level, rest)) => if level < NUM_LEVELS then Some((level, rest)) else None
  }

  function GetNumber(s: Slice): Option<(nat, Slice)> { Varint(s, 10, TWO_64) }

  /** The body of a field with tag `tag`. */
  function ReadBody(tag: nat, s: Slice): Option<(Field, Slice)>
  {
    if tag == 1 then
      match Prefixed(s) case None => None case Some((name, rest)) => Some((Comparator(name), rest))
    else if tag == 2 then
      match GetNumber(s) case None => None case Some((n, rest)) => Some((LogNumber(n), rest))
    else if tag == 9 then
      match GetNumber(s) case None => None case Some((n, rest)) => Some((PrevLogNumber(n), rest))
    else if tag == 3 then
      match GetNumber(s) case None => None case Some((n, rest)) => Some((NextFile(n), rest))
    else if tag == 4 then
      match GetNumber(s) case None => None case Some((n, rest)) => Some((LastSequence(n), rest))
    else if tag == 5 then
      match GetLevel(s) case None => None
      case Some((level, s1)) =>
        match Prefixed(s1) case None => None case Some((key, rest)) => Some((Pointer(level, key), rest))
    else if tag == 6 then
      match GetLevel(s) case None => None
      case Some((level, s1)) =>
        match GetNumber(s1) case None => None case Some((n, rest)) => Some((Deleted(level, n), rest))
    else if tag == 7 then ReadAdded(s)
    else None
  }

  function ReadAdded(s: Slice): Option<(Field, Slice)>
  {
    match GetLevel(s) case None => None
    case Some((level, s1)) =>
      match GetNumber(s1) case None => None
      case Some((n, s2)) =>
        match GetNumber(s2) case None => None
        case Some((size, s3)) =>
          match Prefixed(s3) case None => None
          case Some((smallest, s4)) =>
            match Prefixed(s4) case None => None
            case Some((largest, rest)) => Some((Added(level, n, size, smallest, largest), rest))
  }

  lemma ReadShrinks(tag: nat, s: Slice)
    ensures ReadBody(tag, s).Some? ==> |ReadBody(tag, s).value.1| <= |s|
  {
    hide ReadAdded;
    AddedShrinks(s);
  }

  lemma AddedShrinks(s: Slice)
    ensures ReadAdded(s).Some? ==> |ReadAdded(s).value.1| <= |s|
  {
  }

  /** The fields up to the first error, and whether there was none. */
  function ReadFields(input: Slice): (seq<Field>, bool)
    decreases |input|
  {
    match Varint(input, 5, TWO_32)
    case None => ([], input == [])
    case Some((tag, s)) =>
      match ReadBody(tag, s)
      case None => ([], false)
      case Some((f, rest)) =>
        ReadShrinks(tag, s);
        var r := ReadFields(rest);
        ([f] + r.0, r.1)
  }

  lemma ReadsNumber(n: nat, suffix: Slice)
    requires n < TWO_64
    ensures GetNumber(VarintBytes(n) + suffix) == Some((n, suffix))
  {
    FiveAndTen();
    VarintRoundTrip(n, suffix, 10, TWO_64);
  }

  lemma ReadsLevel(level: nat, suffix: Slice)
    requires level < NUM_LEVELS
    ensures GetLevel(VarintBytes(level) + suffix) == Some((level, suffix))
  {
    FiveAndTen();
    VarintRoundTrip(level, suffix, 5, TWO_32);
  }

  lemma ReadsBody(f: Field, suffix: Slice)
    requires FieldOk(f)
    ensures ReadBody(FieldTag(f), FieldBody(f) + suffix) == Some((f, suffix))
  {
    hide VarintBytes, LengthPrefixed, Prefixed, GetNumber, GetLevel;
    match f
    case Comparator(name) => PrefixedRoundTrip(name, suffix);
    case LogNumber(n) => ReadsNumber(n, suffix);
    case PrevLogNumber(n) => ReadsNumber(n, suffix);
    case NextFile(n) => ReadsNumber(n, suffix);
    case LastSequence(n) => ReadsNumber(n, suffix);
    case Pointer(level, key) =>
      assert FieldBody(f) + suffix == VarintBytes(level) + (LengthPrefixed(key) + suffix);
      ReadsLevel(level, LengthPrefixed(key) + suffix);
      PrefixedRoundTrip(key, suffix);
    case Deleted(level, n) =>
      assert FieldBody(f) + suffix == VarintBytes(level) + (VarintBytes(n) + suffix);
      ReadsLevel(level, VarintBytes(n) + suffix);
      ReadsNumber(n, suffix);
    case Added(level, n, size, smallest, largest) =>
      var s4 := LengthPrefixed(largest) + suffix;
      var s3 := LengthPrefixed(smallest) + s4;
      var s2 := VarintBytes(size) + s3;
      var s1 := VarintBytes(n) + s2;
      assert FieldBody(f) + suffix == VarintBytes(level) + s1;
      ReadsLevel(level, s1);
      ReadsNumber(n, s2);
      ReadsNumber(size, s3);
      PrefixedRoundTrip(smallest, s4);
      PrefixedRoundTrip(largest, suffix);
  }

  lemma ReadStep(input: Slice, tag: nat, s: Slice, f: Field, rest: Slice)
    requires Varint(input, 5, TWO_32) == Some((tag, s)) && ReadBody(tag, s) == Some((f, rest))
    ensures ReadFields(input) == ([f] + ReadFields(rest).0, ReadFields(rest).1)
  {
  }

  lemma {:induction false} ReadsFields(fields: seq<Field>, suffix: Slice)
    requires forall f :: f in fields ==> FieldOk(f)
    ensures ReadFields(FieldsBytes(fields) + suffix) == (fields + ReadFields(suffix).0, ReadFields(suffix).1)
  {
    hide *;
    if fields == [] {
      NoFields();
      assert FieldsBytes(fields) + suffix == suffix && fields + ReadFields(suffix).0 == ReadFields(suffix).0;
    } else {
      var n := |fields| - 1;
      var f := fields[n];
      assert f in fields && forall g :: g in fields[..n] ==> g in fields;
      assert fields == fields[..n] + [f];
      PutsField(fields[..n], f);
      var rest := VarintBytes(FieldTag(f)) + (FieldBody(f) + suffix);
      assert FieldsBytes(fields) + suffix == FieldsBytes(fields[..n]) + rest;
      ReadsFields(fields[..n], rest);
      ReadsTag(f, FieldBody(f) + suffix);
      ReadsBody(f, suffix);
      ReadStep(rest, FieldTag(f), FieldBody(f) + suffix, f, suffix);
      var more := ReadFields(suffix).0;
      assert fields[..n] + ([f] + more) == fields + more;
    }
  }

  lemma ReadsTag(f: Field, suffix: Slice)
    ensures Varint(VarintBytes(FieldTag(f)) + suffix, 5, TWO_32) == Some((FieldTag(f), suffix))
  {
    FiveAndTen();
    VarintRoundTrip(FieldTag(f), suffix, 5, TWO_32);
  }

  // ------------------------------------------------------------------ the record as a whole

  datatype NewFileEntry = NewFileEntry(level: nat, n: nat, size: nat, smallest: Slice, largest: Slice)

  datatype Record = Record(
    comparator: Option<Slice>, logNumber: Option<nat>, prevLogNumber: Option<nat>, nextFile: Option<nat>,
    lastSequence: Option<nat>, pointers: seq<(nat, Slice)>, deleted: seq<(nat, nat)>, added: seq<NewFileEntry>)

  /** The order of deleted_files_. */
  predicate PairBefore(a: (nat, nat), b: (nat, nat)) { a.0 < b.0 || (a.0 == b.0 && a.1 < b.1) }

  ghost predicate PairsSorted(s: seq<(nat, nat)>)
  {
    forall i, j :: 0 <= i < j < |s| ==> PairBefore(s[i], s[j])
  }

  /** std::set::insert. */
  function InsertPair(s: seq<(nat, nat)>, p: (nat, nat)): seq<(nat, nat)>
  {
    if s == [] then [p]
    else if PairBefore(s[|s| - 1], p) then s + [p]
    else if s[|s| - 1] == p then s
    else InsertPair(s[..|s| - 1], p) + [s[|s| - 1]]
  }

  /** Clear: everything but the compaction pointers. */
  function Cleared(r: Record): Record
  {
    Record(None, None, None, None, None, r.pointers, [], [])
  }

  function WithField(r: Record, f: Field): Record
  {
    match f
    case Comparator(name) => r.(comparator := Some(name))
    case LogNumber(n) => r.(logNumber := Some(n))
    case PrevLogNumber(n) => r.(prevLogNumber := Some(n))
    case NextFile(n) => r.(nextFile := Some(n))
    case LastSequence(n) => r.(lastSequence := Some(n))
    case Pointer(level, key) => r.(pointers := r.pointers + [(level, key)])
    case Deleted(level, n) => r.(deleted := InsertPair(r.deleted, (level, n)))
    case Added(level, n, size, smallest, largest) => r.(added := r.added + [NewFileEntry(level, n, size, smallest, largest)])
  }

  function WithFields(r: Record, fields: seq<Field>): Record
  {
    if fields == [] then r else WithField(WithFields(r, fields[..|fields| - 1]), fields[|fields| - 1])
  }

  lemma {:induction false} WithFieldsAppend(r: Record, a: seq<Field>, b: seq<Field>)
    ensures WithFields(r, a + b) == WithFields(WithFields(r, a), b)
  {
    if b == [] {
      assert a + b == a;
    } else {
      var n := |b| - 1;
      assert (a + b)[..|a + b| - 1] == a + b[..n];
      WithFieldsAppend(r, a, b[..n]);
    }
  }

  function Scalars(r: Record): seq<Field>
  {
    (match r.comparator case None => [] case Some(name) => [Comparator(name)]) +
    (match r.logNumber case None => [] case Some(n) => [LogNumber(n)]) +
    (match r.prevLogNumber case None => [] case Some(n) => [PrevLogNumber(n)]) +
    (match r.nextFile case None => [] case Some(n) => [NextFile(n)]) +
    (match r.lastSequence case None => [] case Some(n) => [LastSequence(n)])
  }

  function PointerFields(s: seq<(nat, Slice)>): (r: seq<Field>)
    ensures |r| == |s| && forall i :: 0 <= i < |r| ==> r[i] == Pointer(s[i].0, s[i].1)
  {
    seq(|s|, i requires 0 <= i < |s| => Pointer(s[i].0, s[i].1))
  }

  function DeletedFields(s: seq<(nat, nat)>): (r: seq<Field>)
    ensures |r| == |s| && forall i :: 0 <= i < |r| ==> r[i] == Deleted(s[i].0, s[i].1)
  {
    seq(|s|, i requires 0 <= i < |s| => Deleted(s[i].0, s[i].1))
  }

  function AddedFields(s: seq<NewFileEntry>): (r: seq<Field>)
    ensures |r| == |s| && forall i :: 0 <= i < |r| ==> r[i] == Added(s[i].level, s[i].n, s[i].size, s[i].smallest, s[i].largest)
  {
    seq(|s|, i requires 0 <= i < |s| => Added(s[i].level, s[i].n, s[i].size, s[i].smallest, s[i].largest))
  }

  /** What EncodeTo writes, in its order. */
  function FieldsOf(r: Record): seq<Field>
  {
    Scalars(r) + PointerFields(r.pointers) + DeletedFields(r.deleted) + AddedFields(r.added)
  }

  ghost predicate RecordOk(r: Record)
  {
    PairsSorted(r.deleted) && forall f :: f in FieldsOf(r) ==> FieldOk(f)
  }

  lemma {:induction false} AddsPointers(r: Record, s: seq<(nat, Slice)>)
    ensures WithFields(r, PointerFields(s)) == r.(pointers := r.pointers + s)
  {
    if s == [] {
      assert r.pointers + s == r.pointers;
    } else {
      var n := |s| - 1;
      assert PointerFields(s)[..n] == PointerFields(s[..n]);
      AddsPointers(r, s[..n]);
      assert r.pointers + s[..n] + [s[n]] == r.pointers + s;
    }
  }

  lemma {:induction false} AddsDeleted(r: Record, s: seq<(nat, nat)>)
    requires r.deleted == [] && PairsSorted(s)
    ensures WithFields(r, DeletedFields(s)) == r.(deleted := s)
  {
    if s != [] {
      var n := |s| - 1;
      assert DeletedFields(s)[..n] == DeletedFields(s[..n]);
      AddsDeleted(r, s[..n]);
      assert n > 0 ==> PairBefore(s[..n][n - 1], s[n]);
      assert s[..n] + [s[n]] == s;
    }
  }

  lemma {:induction false} AddsFiles(r: Record, s: seq<NewFileEntry>)
    requires r.added == []
    ensures WithFields(r, AddedFields(s)) == r.(added := s)
  {
    if s != [] {
      var n := |s| - 1;
      assert AddedFields(s)[..n] == AddedFields(s[..n]);
      AddsFiles(r, s[..n]);
      assert s[..n] + [s[n]] == s;
    }
  }

  lemma AddsScalars(r: Record, p: seq<(nat, Slice)>)
    ensures WithFields(Record(None, None, None, None, None, p, [], []), Scalars(r)) ==
            Record(r.comparator, r.logNumber, r.prevLogNumber, r.nextFile, r.lastSequence, p, [], [])
  {
    var a := match r.comparator case None => [] case Some(name) => [Comparator(name)];
    var b := match r.logNumber case None => [] case Some(n) => [LogNumber(n)];
    var c := match r.prevLogNumber case None => [] case Some(n) => [PrevLogNumber(n)];
    var d := match r.nextFile case None => [] case Some(n) => [NextFile(n)];
    var e := match r.lastSequence case None => [] case Some(n) => [LastSequence(n)];
    hide WithFields;
    var start := Record(None, None, None, None, None, p, [], []);
    FewFields(start, a);
    WithFieldsAppend(start, a, b);
    FewFields(WithFields(start, a), b);
    WithFieldsAppend(start, a + b, c);
    FewFields(WithFields(start, a + b), c);
    WithFieldsAppend(start, a + b + c, d);
    FewFields(WithFields(start, a + b + c), d);
    WithFieldsAppend(start, a + b + c + d, e);
    FewFields(WithFields(start, a + b + c + d), e);
  }

  lemma FewFields(r: Record, fields: seq<Field>)
    requires |fields| <= 1
    ensures WithFields(r, fields) == if fields == [] then r else WithField(r, fields[0])
  {
    if fields != [] { assert fields[..0] == []; }
  }

  /** Decoding an encoded record: DecodeFrom(EncodeTo(r)) on an edit that held `before`. */
  function Decode(before: Record, src: Slice): (Record, bool)
  {
    var fields := ReadFields(src);
    (WithFields(Cleared(before), fields.0), fields.1)
  }

  /** The record comes back, after the compaction pointers that Clear leaves behind. */
  lemma EditRoundTrip(r: Record, before: Record)
    requires RecordOk(r)
    ensures Decode(before, FieldsBytes(FieldsOf(r))) == (r.(pointers := before.pointers + r.pointers), true)
  {
    hide FieldsBytes, ReadFields, WithFields, Scalars, FieldOk;
    var fields := FieldsOf(r);
    assert FieldsBytes(fields) + [] == FieldsBytes(fields);
    ReadsFields(fields, []);
    NothingToRead();
    assert fields + [] == fields;
    var start := Cleared(before);
    var a, b, c, d := Scalars(r), PointerFields(r.pointers), DeletedFields(r.deleted), AddedFields(r.added);
    WithFieldsAppend(start, a, b);
    WithFieldsAppend(start, a + b, c);
    WithFieldsAppend(start, a + b + c, d);
    AddsScalars(r, before.pointers);
    var r1 := WithFields(start, a);
    AddsPointers(r1, r.pointers);
    var r2 := WithFields(r1, b);
    AddsDeleted(r2, r.deleted);
    AddsFiles(WithFields(r2, c), r.added);
  }

  lemma NothingToRead()
    ensures ReadFields([]) == ([], true)
  {
  }

  /** DecodeFrom undoes EncodeTo exactly on edits that held no compaction pointers. */
  lemma EditRoundTripIff(r: Record, before: Record)
    requires RecordOk(r)
    ensures Decode(before, FieldsBytes(FieldsOf(r))) == (r, true) <==> before.pointers == []
  {
    EditRoundTrip(r, before);
    assert |before.pointers + r.pointers| == |before.pointers| + |r.pointers|;
    if before.pointers == [] { assert before.pointers + r.pointers == r.pointers; }
  }

  // ------------------------------------------------------------------ the class

  method PutField(dst: Slice, f: Field, ghost before: seq<Field>) returns (r: Slice)
    requires FieldOk(f) && dst == FieldsBytes(before)
    ensures r == FieldsBytes(before + [f])
  {
    hide VarintBytes, FieldsBytes;
    PutsField(before, f);
    var tag := EncodeVarint32(FieldTag(f));
    r := dst + tag;
    match f
    case Comparator(name) => r := r + LengthPrefixed(name);
    case LogNumber(n) => var v := EncodeVarint64(n); r := r + v;
    case PrevLogNumber(n) => var v := EncodeVarint64(n); r := r + v;
    case NextFile(n) => var v := EncodeVarint64(n); r := r + v;
    case LastSequence(n) => var v := EncodeVarint64(n); r := r + v;
    case Pointer(level, key) =>
      var l := EncodeVarint32(level);
      r := r + (l + LengthPrefixed(key));
    case Deleted(level, n) =>
      var l := EncodeVarint32(level);
      var v := EncodeVarint64(n);
      r := r + (l + v);
    case Added(level, n, size, smallest, largest) =>
      var l := EncodeVarint32(level);
      var v := EncodeVarint64(n);
      var w := EncodeVarint64(size);
      r := r + (l + v + w + LengthPrefixed(smallest) + LengthPrefixed(largest));
  }

  /** One field at the front of the input; None if it is malformed. */
  method GetBody(tag: nat, s: Slice) returns (r: Option<(Field, Slice)>)
    ensures r == ReadBody(tag, s)
  {
    r := None;
    if tag == 1 {
      var name := GetLengthPrefixedSlice(s);
      if name.Some? { r := Some((Comparator(name.value.0), name.value.1)); }
    } else if tag == 2 || tag == 9 || tag == 3 || tag == 4 {
      var n := GetVarint64(s);
      if n.Some? {
        var f := if tag == 2 then LogNumber(n.value.0) else if tag == 9 then PrevLogNumber(n.value.0)
                 else if tag == 3 then NextFile(n.value.0) else LastSequence(n.value.0);
        r := Some((f, n.value.1));
      }
    } else if tag == 5 {
      var level := ReadLevel(s);
      if level.Some? {
        var key := GetLengthPrefixedSlice(level.value.1);
        if key.Some? { r := Some((Pointer(level.value.0, key.value.0), key.value.1)); }
      }
    } else if tag == 6 {
      var level := ReadLevel(s);
      if level.Some? {
        var n := GetVarint64(level.value.1);
        if n.Some? { r := Some((Deleted(level.value.0, n.value.0), n.value.1)); }
      }
    } else if tag == 7 {
      r := GetAdded(s);
    }
  }

  method ReadLevel(s: Slice) returns (r: Option<(nat, Slice)>)
    ensures r == GetLevel(s)
  {
    r := GetVarint32(s);
    if r.Some? && r.value.0 >= NUM_LEVELS { r := None; }
  }

  method GetAdded(s: Slice) returns (r: Option<(Field, Slice)>)
    ensures r == ReadAdded(s)
  {
    r := None;
    var level := ReadLevel(s);
    if level.None? { return; }
    var n := GetVarint64(level.value.1);
    if n.None? { return; }
    var size := GetVarint64(n.value.1);
    if size.None? { return; }
    var smallest := GetLengthPrefixedSlice(size.value.1);
    if smallest.None? { return; }
    var largest := GetLengthPrefixedSlice(smallest.value.1);
    if largest.None? { return; }
    r := Some((Added(level.value.0, n.value.0, size.value.0, smallest.value.0, largest.value.0), largest.value.1));
  }

  class VersionEdit {
    var comparator: Option<Slice>
    var logNumber: Option<nat>
    var prevLogNumber: Option<nat>
    var nextFile: Option<nat>
    var lastSequence: Option<nat>
    var pointers: seq<(nat, Slice)>
    var deleted: seq<(nat, nat)>
    var added: seq<NewFileEntry>

    function View(): Record
      reads this
    {
      Record(comparator, logNumber, prevLogNumber, nextFile, lastSequence, pointers, deleted, added)
    }

    constructor ()
      ensures View() == Record(None, None, None, None, None, [], [], [])
    {
      comparator, logNumber, prevLogNumber, nextFile, lastSequence := None, None, None, None, None;
      pointers, deleted, added := [], [], [];
    }

    method EncodeTo() returns (dst: Slice)
      requires RecordOk(View())
      ensures dst == FieldsBytes(FieldsOf(View()))
    {
      hide FieldsBytes, FieldOk, Scalars;
      ghost var all := FieldsOf(View());
      ghost var a, b, c, d := Scalars(View()), PointerFields(pointers), DeletedFields(deleted), AddedFields(added);
      forall f | f in a || f in b || f in c || f in d ensures FieldOk(f) { assert f in all; }
      dst := EncodeScalars();
      assert a + b[..0] == a;
      for i := 0 to |pointers|
        invariant dst == FieldsBytes(a + b[..i])
      {
        assert a + b[..i] + [b[i]] == a + b[..i + 1];
        dst := PutField(dst, Pointer(pointers[i].0, pointers[i].1), a + b[..i]);
      }
      assert a + b[..|pointers|] == a + b && a + b + c[..0] == a + b;
      for i := 0 to |deleted|
        invariant dst == FieldsBytes(a + b + c[..i])
      {
        assert a + b + c[..i] + [c[i]] == a + b + c[..i + 1];
        dst := PutField(dst, Deleted(deleted[i].0, deleted[i].1), a + b + c[..i]);
      }
      assert a + b + c[..|deleted|] == a + b + c && a + b + c + d[..0] == a + b + c;
      for i := 0 to |added|
        invariant dst == FieldsBytes(a + b + c + d[..i])
      {
        assert a + b + c + d[..i] + [d[i]] == a + b + c + d[..i + 1];
        dst := PutField(dst, Added(added[i].level, added[i].n, added[i].size, added[i].smallest, added[i].largest), a + b + c + d[..i]);
      }
      assert a + b + c + d[..|added|] == all;
    }

    method EncodeScalars() returns (dst: Slice)
      requires forall f :: f in Scalars(View()) ==> FieldOk(f)
      ensures dst == FieldsBytes(Scalars(View()))
    {
      hide FieldsBytes, FieldOk;
      ghost var done: seq<Field> := [];
      dst := [];
      NoFields();
      if comparator.Some? {
        dst := PutField(dst, Comparator(comparator.value), done);
        done := done + [Comparator(comparator.value)];
      }
      if logNumber.Some? {
        dst := PutField(dst, LogNumber(logNumber.value), done);
        done := done + [LogNumber(logNumber.value)];
      }
      if prevLogNumber.Some? {
        dst := PutField(dst, PrevLogNumber(prevLogNumber.value), done);
        done := done + [PrevLogNumber(prevLogNumber.value)];
      }
      if nextFile.Some? {
        dst := PutField(dst, NextFile(nextFile.value), done);
        done := done + [NextFile(nextFile.value)];
      }
      if lastSequence.Some? {
        dst := PutField(dst, LastSequence(lastSequence.value), done);
        done := done + [LastSequence(lastSequence.value)];
      }
      assert done == Scalars(View());
    }

    method Clear()
      modifies this
      ensures View() == Cleared(old(View()))
    {
      comparator, logNumber, prevLogNumber, nextFile, lastSequence := None, None, None, None, None;
      deleted, added := [], [];
    }

    method Set(f: Field)
      modifies this
      ensures View() == WithField(old(View()), f)
    {
      match f
      case Comparator(name) => comparator := Some(name);
      case LogNumber(n) => logNumber := Some(n);
      case PrevLogNumber(n) => prevLogNumber := Some(n);
      case NextFile(n) => nextFile := Some(n);
      case LastSequence(n) => lastSequence := Some(n);
      case Pointer(level, key) => pointers := pointers + [(level, key)];
      case Deleted(level, n) => deleted := InsertPair(deleted, (level, n));
      case Added(level, n, size, smallest, largest) => added := added + [NewFileEntry(level, n, size, smallest, largest)];
    }

    method DecodeFrom(src: Slice) returns (ok: bool)
      modifies this
      ensures (View(), ok) == Decode(old(View()), src)
    {
      hide ReadBody, WithField, Varint;
      Clear();
      var input := src;
      ghost var start := View();
      ghost var done: seq<Field> := [];
      ghost var all := ReadFields(src);
      ok := true;
      assert [] + all.0 == all.0;
      while true
        invariant View() == WithFields(start, done) && done + ReadFields(input).0 == all.0 && ReadFields(input).1 == all.1
        decreases |input|
      {
        var tag := GetVarint32(input);
        if tag.None? { break; }
        ReadShrinks(tag.value.0, tag.value.1);
        TagShrinks(input);
        var r := GetBody(tag.value.0, tag.value.1);
        if r.None? {
          assert done + [] == done;
          return false;
        }
        ghost var rest := ReadFields(r.value.1).0;
        assert done + ([r.value.0] + rest) == (done + [r.value.0]) + rest;
        assert (done + [r.value.0])[..|done|] == done;
        Set(r.value.0);
        input, done := r.value.1, done + [r.value.0];
      }
      assert done + [] == done;
      ok := input == [];
    }
  }

  lemma TagShrinks(s: Slice)
    ensures Varint(s, 5, TWO_32).Some? ==> |Varint(s, 5, TWO_32).value.1| < |s|
  {
  }

  lemma NoFields()
    ensures FieldsBytes([]) == []
  {
  }

  lemma PutsField(fields: seq<Field>, f: Field)
    ensures FieldsBytes(fields + [f]) == FieldsBytes(fields) + VarintBytes(FieldTag(f)) + FieldBody(f)
  {
    assert (fields + [f])[..|fields|] == fields;
  }
}
