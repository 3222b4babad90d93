/** Reading a log of which bytes have been damaged (db/log_reader.cc): what comes back was written, and in that order. */
module LogDamage {
  import opened Bytes
  import opened InternalKeys
  import opened LogFormat
  import opened LogReader

  // ------------------------------------------------------------------ the log as a row of fragments

  /** What a log holds from some fragment on: the rest of a record, whose first fragment is next or not, and more records. */
  datatype Tail = NoMore | Tail(left: Slice, begin: bool, records: seq<Slice>)

  function TailOf(records: seq<Slice>): Tail
  {
    if records == [] then NoMore else Tail(records[0], true, records[1..])
  }

  function Rest(crc: Checksum, c: nat, t: Tail): Slice
  {
    if t.NoMore? then [] else
      var e := Encode(crc, c, t.left, t.begin);
      e + LogFrom(crc, c + |e|, t.records)
  }

  /** The fragment at the head. */
  function Head(c: nat, t: Tail): Piece
    requires t.Tail?
  {
    var n := FragmentLength(c, t.left);
    Piece(TypeCode(TypeOf(t.begin, n == |t.left|)), t.left[..n])
  }

  function HeadEnd(c: nat, t: Tail): (e: nat)
    requires t.Tail?
    ensures Aligned(c) + HEADER_SIZE <= e <= NextBlock(Aligned(c))
  {
    Aligned(c) + HEADER_SIZE + FragmentLength(c, t.left)
  }

  function Next(c: nat, t: Tail): Tail
    requires t.Tail?
  {
    var n := FragmentLength(c, t.left);
    if n == |t.left| then TailOf(t.records) else Tail(t.left[n..], false, t.records)
  }

  lemma RestIsNext(crc: Checksum, c: nat, t: Tail)
    requires t.Tail?
    ensures c + |Rest(crc, c, t)| == HeadEnd(c, t) + |Rest(crc, HeadEnd(c, t), Next(c, t))|
  {
    hide Fragment, FragmentLength, Encode;
    EncodeStep(crc, c, t.left, t.begin);
    assert c + |Fragment(crc, c, t.left, t.begin)| == HeadEnd(c, t);
  }

  /**
   * Damage shows: what the reader takes for a record at the place of a fragment that was written is that fragment. In
   * other words the checksum of a damaged one does not match. Bytes in between may be anything.
   */
  ghost predicate Shows(crc: Checksum, file: Slice, c: nat, t: Tail)
    decreases if t.NoMore? then 0 else 1 + |t.records|, if t.NoMore? then 0 else |t.left|, if t.NoMore? || FragmentLength(c, t.left) > 0 then 0 else 1
  {
    t.NoMore? ||
    (EmptyThenNot(c, t);
     && (Aligned(c) <= |file| && ReadPiece(crc, file, Aligned(c)).piece.Piece? ==> ReadPiece(crc, file, Aligned(c)).piece == Head(c, t))
     && Shows(crc, file, HeadEnd(c, t), Next(c, t)))
  }

  /** After an empty fragment that is not the last comes one that is not empty. */
  lemma EmptyThenNot(c: nat, t: Tail)
    requires t.Tail?
    ensures FragmentLength(c, t.left) == 0 && t.left != [] ==> FragmentLength(HeadEnd(c, t), t.left) > 0
  {
  }

  // ------------------------------------------------------------------ subsequences

  /** Some of the elements of `b`, in their order. */
  predicate Subsequence(a: seq<Slice>, b: seq<Slice>)
  {
    a == [] || (b != [] && (Subsequence(a, b[1..]) || (a[0] == b[0] && Subsequence(a[1..], b[1..]))))
  }

  lemma {:induction false} LaterElement(a: seq<Slice>, b: seq<Slice>, j: nat)
    requires a != [] && j < |b| && a[0] == b[j] && Subsequence(a[1..], b[j + 1..])
    ensures Subsequence(a, b)
  {
    if j > 0 {
      assert b[1..][j..] == b[j + 1..];
      LaterElement(a, b[1..], j - 1);
    }
  }

  // ------------------------------------------------------------------ the reader on the damaged log

  /** The reader stands at `r`: at the end of a fragment, or past the trailer behind it; `t` is what the log goes on with. */
  ghost predicate Stands(crc: Checksum, file: Slice, r: nat, c: nat, t: Tail)
  {
    r <= |file| && (r == c || r == Aligned(c)) && |file| <= c + |Rest(crc, c, t)| && Shows(crc, file, c, t)
  }

  /** The next physical record: the fragment that is there, or none of it, and then the rest of the block is dropped. */
  lemma PieceAt(crc: Checksum, file: Slice, r: nat, c: nat, t: Tail)
    requires t.Tail? && Stands(crc, file, r, c, t)
    ensures var s := ReadPiece(crc, file, r);
      match s.piece
      case EndOfFile => true
      case Damaged => Aligned(c) <= |file| && s.next == BlockEnd(file, Aligned(c))
      case Piece(_, _) => s.piece == Head(c, t) && s.next == HeadEnd(c, t)
  {
    hide FragmentLength, CrcOf, Rest, ReadPiece, HeadEnd;
    StandsInside(crc, file, r, c, t);
    TrailerSkipped(crc, file, c);
    if Aligned(c) <= |file| {
      PieceParts(crc, file, Aligned(c));
      HeadParts(c, t);
      HeadFits(c, t);
    }
  }

  /** The outcomes of reading at a place where a header fits into the block. */
  lemma PieceParts(crc: Checksum, file: Slice, c: nat)
    requires c <= |file| && Leftover(c) >= HEADER_SIZE
    ensures var s := ReadPiece(crc, file, c);
            && (s.piece.Damaged? ==> s.next == BlockEnd(file, c))
            && (s.piece.Piece? ==> s.next == c + HEADER_SIZE + |s.piece.data|)
  {
    hide CrcOf, Unmask;
  }

  lemma HeadParts(c: nat, t: Tail)
    requires t.Tail?
    ensures |Head(c, t).data| == FragmentLength(c, t.left)
  {
  }

  lemma HeadFits(c: nat, t: Tail)
    requires t.Tail?
    ensures HeadEnd(c, t) == Aligned(c) + HEADER_SIZE + FragmentLength(c, t.left) && Leftover(Aligned(c)) >= HEADER_SIZE
  {
  }

  lemma AtEnd(crc: Checksum, file: Slice, inFragment: bool, scratch: Slice)
    ensures ReadFrom(crc, file, |file|, inFragment, scratch).record == None
  {
    assert ReadPiece(crc, file, |file|).piece == EndOfFile;
  }

  lemma Onwards(crc: Checksum, file: Slice, r: nat, c: nat, t: Tail)
    requires t.Tail? && Stands(crc, file, r, c, t) && HeadEnd(c, t) <= |file|
    ensures Stands(crc, file, HeadEnd(c, t), HeadEnd(c, t), Next(c, t))
  {
    hide FragmentLength, ReadPiece, Rest;
    RestIsNext(crc, c, t);
  }

  /** The fragments of the log that lie in a block which is dropped. */
  lemma {:induction false} SkipBlock(crc: Checksum, file: Slice, c: nat, t: Tail, b: nat) returns (c': nat, t': Tail, k: nat)
    requires t.Tail? && |file| <= c + |Rest(crc, c, t)| && Shows(crc, file, c, t)
    requires b == NextBlock(Aligned(c)) && b < |file|
    ensures Stands(crc, file, b, c', t') && k <= |t.records|
    ensures if t'.NoMore? then k == |t.records| else if t'.begin then k < |t.records| && t' == TailOf(t.records[k..]) else t'.records == t.records[k..]
    decreases if t.NoMore? then 0 else 1 + |t.records|, |t.left|, if FragmentLength(c, t.left) > 0 then 0 else 1
  {
    hide ReadPiece, Rest;
    RestIsNext(crc, c, t);
    EmptyThenNot(c, t);
    var e, next := HeadEnd(c, t), Next(c, t);
    if e == b || Aligned(e) == b {
      c', t', k := e, next, 0;
    } else {
      SameBlock(Aligned(c), e);
      assert Aligned(e) == e;
      if next.NoMore? {
        NoRest(crc, e);
        assert false;
      } else {
        c', t', k := SkipBlock(crc, file, e, next, b);
        if next.begin {
          k := k + 1;
          assert t.records[1..][k - 1..] == t.records[k..];
        }
      }
    }
  }

  lemma NoRest(crc: Checksum, c: nat)
    ensures |Rest(crc, c, NoMore)| == 0
  {
  }

  /** The records a reader may still return. */
  function Candidates(t: Tail, inFragment: bool, scratch: Slice): seq<Slice>
  {
    if t.NoMore? then []
    else if t.begin then [t.left] + t.records
    else if inFragment then [scratch + t.left] + t.records
    else t.records
  }

  lemma CandidatesOf(records: seq<Slice>)
    ensures Candidates(TailOf(records), false, []) == records
  {
  }

  /** What was got, if anything, is candidate `j`, and the reader is behind it then. */
  ghost predicate IsCandidate(crc: Checksum, file: Slice, got: Read, candidates: seq<Slice>, j: nat)
  {
    got.record.Some? ==>
      j < |candidates| && got.record == Some(candidates[j]) && Stands(crc, file, got.next, got.next, TailOf(candidates[j + 1..]))
  }

  /** Whatever the reader has so far, the next record it returns is one of those that may come. */
  lemma {:induction false} NextRecord(crc: Checksum, file: Slice, r: nat, c: nat, t: Tail, inFragment: bool, scratch: Slice) returns (j: nat)
    requires Stands(crc, file, r, c, t) && (if inFragment then t.Tail? && !t.begin else scratch == [])
    ensures r <= |file| && IsCandidate(crc, file, ReadFrom(crc, file, r, inFragment, scratch), Candidates(t, inFragment, scratch), j)
    decreases |file| - r, 1
  {
    hide ReadPiece, Stands, Rest, FragmentLength, Candidates, Next, Head, HeadEnd;
    j := 0;
    StandsInside(crc, file, r, c, t);
    if t.NoMore? {
      LogOver(crc, file, r, c, inFragment, scratch);
    } else {
      PieceAt(crc, file, r, c, t);
      var s := ReadPiece(crc, file, r);
      if s.piece.Damaged? {
        j := AfterDamage(crc, file, c, t, inFragment, scratch, s.next);
      } else if s.piece.Piece? {
        Onwards(crc, file, r, c, t);
        j := AfterPiece(crc, file, r, c, t, inFragment, scratch);
      }
    }
  }

  lemma {:induction false} AfterDamage(crc: Checksum, file: Slice, c: nat, t: Tail, inFragment: bool, scratch: Slice, next: nat) returns (j: nat)
    requires t.Tail? && |file| <= c + |Rest(crc, c, t)| && Shows(crc, file, c, t) && Aligned(c) <= |file| && next == BlockEnd(file, Aligned(c))
    ensures next <= |file| && IsCandidate(crc, file, ReadFrom(crc, file, next, false, []), Candidates(t, inFragment, scratch), j)
    decreases |file| - next, 2
  {
    hide *;
    BlockEndIs(file, Aligned(c));
    j := 0;
    if next == |file| {
      NoCandidate(crc, file, ReadFrom(crc, file, next, false, []), Candidates(t, inFragment, scratch));
      AtEnd(crc, file, false, []);
    } else {
      var candidates := Candidates(t, inFragment, scratch);
      var c', t', k := SkipBlock(crc, file, c, t, next);
      SkippedTo(t, t', k, inFragment, scratch);
      var i := NextRecord(crc, file, next, c', t', false, []);
      j := |candidates| - |t.records| + k + i;
      LaterCandidate(crc, file, ReadFrom(crc, file, next, false, []), candidates, t.records, k, i);
    }
  }

  lemma {:induction false} AfterPiece(crc: Checksum, file: Slice, r: nat, c: nat, t: Tail, inFragment: bool, scratch: Slice) returns (j: nat)
    requires r <= |file| && t.Tail? && (if inFragment then !t.begin else scratch == [])
    requires ReadPiece(crc, file, r).piece == Head(c, t) && ReadPiece(crc, file, r).next == HeadEnd(c, t)
    requires Stands(crc, file, HeadEnd(c, t), HeadEnd(c, t), Next(c, t))
    ensures IsCandidate(crc, file, ReadFrom(crc, file, r, inFragment, scratch), Candidates(t, inFragment, scratch), j)
    decreases |file| - r, 0
  {
    hide ReadPiece, Stands, FragmentLength, HeadEnd;
    j := 0;
    var e, next := HeadEnd(c, t), Next(c, t);
    var data := Head(c, t).data;
    var candidates := Candidates(t, inFragment, scratch);
    if FragmentLength(c, t.left) == |t.left| {
      assert data == t.left;
      CandidatesOf(t.records);
      if t.begin || inFragment {
        assert candidates[1..] == t.records;
      } else {
        j := NextRecord(crc, file, e, e, next, false, []);
      }
    } else {
      assert data + next.left == t.left;
      assert scratch + data + next.left == scratch + t.left;
      j := NextRecord(crc, file, e, e, next, t.begin || inFragment, if t.begin then data else if inFragment then scratch + data else []);
    }
  }

  lemma BlockEndIs(file: Slice, c: nat)
    ensures BlockEnd(file, c) <= |file|
    ensures BlockEnd(file, c) < |file| ==> BlockEnd(file, c) == NextBlock(c)
  {
  }

  lemma NoCandidate(crc: Checksum, file: Slice, got: Read, candidates: seq<Slice>)
    requires got.record == None
    ensures IsCandidate(crc, file, got, candidates, 0)
  {
  }

  lemma SkippedTo(t: Tail, t': Tail, k: nat, inFragment: bool, scratch: Slice)
    requires t.Tail? && k <= |t.records|
    requires if t'.NoMore? then k == |t.records| else if t'.begin then k < |t.records| && t' == TailOf(t.records[k..]) else t'.records == t.records[k..]
    ensures Candidates(t', false, []) == t.records[k..]
    ensures var candidates := Candidates(t, inFragment, scratch);
      |t.records| <= |candidates| && candidates[|candidates| - |t.records|..] == t.records
  {
  }

  lemma LaterCandidate(crc: Checksum, file: Slice, got: Read, candidates: seq<Slice>, records: seq<Slice>, k: nat, i: nat)
    requires |records| <= |candidates| && candidates[|candidates| - |records|..] == records && k <= |records|
    requires IsCandidate(crc, file, got, records[k..], i)
    ensures IsCandidate(crc, file, got, candidates, |candidates| - |records| + k + i)
  {
    hide Stands, TailOf;
    SameRest(candidates, records, k, i);
  }

  lemma SameRest(candidates: seq<Slice>, records: seq<Slice>, k: nat, i: nat)
    requires |records| <= |candidates| && candidates[|candidates| - |records|..] == records && k <= |records|
    ensures k + i < |records| ==> (var j := |candidates| - |records| + k + i;
      candidates[j] == records[k..][i] && candidates[j + 1..] == records[k..][i + 1..])
  {
    if k + i < |records| {
      var j := |candidates| - |records| + k + i;
      assert candidates[j + 1..] == candidates[|candidates| - |records|..][k..][i + 1..];
    }
  }

  lemma StandsInside(crc: Checksum, file: Slice, r: nat, c: nat, t: Tail)
    requires Stands(crc, file, r, c, t)
    ensures r <= |file| && |file| <= c + |Rest(crc, c, t)| && Shows(crc, file, c, t)
  {
  }

  lemma LogOver(crc: Checksum, file: Slice, r: nat, c: nat, inFragment: bool, scratch: Slice)
    requires Stands(crc, file, r, c, NoMore)
    ensures r == |file| && ReadFrom(crc, file, r, inFragment, scratch).record == None
  {
    AtEnd(crc, file, inFragment, scratch);
  }

  lemma {:induction false} RecordsComeInOrder(crc: Checksum, file: Slice, c: nat, records: seq<Slice>)
    requires Stands(crc, file, c, c, TailOf(records))
    ensures Subsequence(ReadAll(crc, file, c).0, records)
    decreases |file| - c
  {
    hide ReadFrom, Stands;
    StandsInside(crc, file, c, c, TailOf(records));
    CandidatesOf(records);
    var j := NextRecord(crc, file, c, c, TailOf(records), false, []);
    var got := ReadFrom(crc, file, c, false, []);
    if got.record.Some? {
      RecordsComeInOrder(crc, file, got.next, records[j + 1..]);
      LaterElement(ReadAll(crc, file, c).0, records, j);
    }
  }

  /**
   * Whatever has happened to the bytes of a log, cut short or not, if damage shows then reading it returns only records
   * that were written, each at most once and in the order in which they were.
   */
  lemma DamagedLog(crc: Checksum, records: seq<Slice>, file: Slice)
    requires |file| <= |LogFrom(crc, 0, records)| && Shows(crc, file, 0, TailOf(records))
    ensures Subsequence(ReadAll(crc, file, 0).0, records)
  {
    hide Encode, Shows;
    assert Rest(crc, 0, TailOf(records)) == LogFrom(crc, 0, records);
    RecordsComeInOrder(crc, file, 0, records);
  }

  // ------------------------------------------------------------------ logs that damage shows in

  /** Past the end of the file nothing is taken for a record. */
  lemma {:induction false} PastTheEnd(crc: Checksum, file: Slice, c: nat, t: Tail)
    requires |file| < c
    ensures Shows(crc, file, c, t)
    decreases if t.NoMore? then 0 else 1 + |t.records|, if t.NoMore? then 0 else |t.left|, if t.NoMore? || FragmentLength(c, t.left) > 0 then 0 else 1
  {
    hide ReadPiece, FragmentLength;
    if t.Tail? {
      EmptyThenNot(c, t);
      PastTheEnd(crc, file, HeadEnd(c, t), Next(c, t));
    }
  }

  /** Where the file goes on with the next fragment, whole or cut off, that fragment is read or nothing is. */
  lemma HeadRead(crc: Checksum, file: Slice, c: nat, t: Tail)
    requires t.Tail? && Holds(file, c, Rest(crc, c, t))
    ensures Aligned(c) <= |file| && ReadPiece(crc, file, Aligned(c)).piece.Piece? ==> ReadPiece(crc, file, Aligned(c)).piece == Head(c, t)
    ensures HeadEnd(c, t) <= |file| ==> Holds(file, HeadEnd(c, t), Rest(crc, HeadEnd(c, t), Next(c, t)))
  {
    hide ReadPiece, Fragment, FragmentLength, Encode, Holds, LogFrom;
    var f := Fragment(crc, c, t.left, t.begin);
    var e := HeadEnd(c, t);
    FragmentEnds(crc, c, t);
    RestSplits(crc, c, t);
    HoldsParts(file, c, f, Rest(crc, e, Next(c, t)));
    HoldsInside(file, c, f);
    TrailerSkipped(crc, file, c);
    FragmentRead(crc, file, c, t.left, t.begin);
  }

  lemma HoldsInside(file: Slice, c: nat, part: Slice)
    requires Holds(file, c, part)
    ensures c <= |file|
  {
  }

  lemma FragmentEnds(crc: Checksum, c: nat, t: Tail)
    requires t.Tail?
    ensures c + |Fragment(crc, c, t.left, t.begin)| == HeadEnd(c, t)
  {
  }

  lemma RestSplits(crc: Checksum, c: nat, t: Tail)
    requires t.Tail?
    ensures Rest(crc, c, t) == Fragment(crc, c, t.left, t.begin) + Rest(crc, HeadEnd(c, t), Next(c, t))
  {
    hide Fragment, FragmentLength, Encode;
    FragmentEnds(crc, c, t);
    EncodeStep(crc, c, t.left, t.begin);
    RestIsNext(crc, c, t);
  }

  /** A log that is not damaged, whole or cut off anywhere, is one in which damage shows. */
  lemma {:induction false} UndamagedShows(crc: Checksum, file: Slice, c: nat, t: Tail)
    requires Holds(file, c, Rest(crc, c, t))
    ensures Shows(crc, file, c, t)
    decreases if t.NoMore? then 0 else 1 + |t.records|, if t.NoMore? then 0 else |t.left|, if t.NoMore? || FragmentLength(c, t.left) > 0 then 0 else 1
  {
    hide ReadPiece, FragmentLength, Rest, Holds;
    if t.Tail? {
      EmptyThenNot(c, t);
      HeadRead(crc, file, c, t);
      var e := HeadEnd(c, t);
      if e <= |file| {
        UndamagedShows(crc, file, e, Next(c, t));
      } else {
        PastTheEnd(crc, file, e, Next(c, t));
      }
    }
  }

  /** So of a log that was only cut short, DamagedLog speaks too. */
  lemma TruncatedShows(crc: Checksum, records: seq<Slice>, n: nat)
    requires n <= |LogFrom(crc, 0, records)|
    ensures Shows(crc, LogFrom(crc, 0, records)[..n], 0, TailOf(records))
  {
    hide Shows, Encode;
    assert Rest(crc, 0, TailOf(records)) == LogFrom(crc, 0, records);
    UndamagedShows(crc, LogFrom(crc, 0, records)[..n], 0, TailOf(records));
  }
}
