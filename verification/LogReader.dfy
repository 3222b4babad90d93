/** Reading a log back (db/log_reader.cc), also when its tail is missing. */
module LogReader {
  import opened Bytes
  import opened InternalKeys
  import opened Coding
  import opened LogFormat

  // ------------------------------------------------------------------ what reading means

  datatype Piece = EndOfFile | Damaged | Piece(code: byte, data: Slice)

  /** One physical record: what it is, where the reader stands after it, how many corruption reports it caused. */
  datatype Step = Step(piece: Piece, next: nat, reports: nat)

  function NextBlock(c: nat): nat { c + Leftover(c) }

  /** The block of position `c`, as far as the file goes. */
  function BlockEnd(file: Slice, c: nat): nat
  {
    if NextBlock(c) < |file| then NextBlock(c) else |file|
  }

  lemma SameBlock(c: nat, d: nat)
    requires c <= d < NextBlock(c)
    ensures NextBlock(d) == NextBlock(c)
  {
  }

  predicate LastBlock(file: Slice, c: nat) { NextBlock(c) > |file| }

  /** A header at `c`, in a block that ends at `end`. */
  function Parse(crc: Checksum, file: Slice, c: nat, end: nat, last: bool): (s: Step)
    requires c + HEADER_SIZE <= end <= |file|
    ensures c < s.next <= end
  {
    var length := file[c + 4] as nat + 256 * file[c + 5] as nat;
    var code := file[c + 6];
    if HEADER_SIZE + length > end - c then
      if last then Step(EndOfFile, end, 0) else Step(Damaged, end, 1)
    else
      var data := file[c + HEADER_SIZE..c + HEADER_SIZE + length];
      if code == 0 && length == 0 then Step(Damaged, end, 0)
      else if Unmask(FixedValue(file[c..c + 4])) != CrcOf(crc, code, data) then Step(Damaged, end, 1)
      else Step(Piece(code, data), c + HEADER_SIZE + length, 0)
  }

  /** The next physical record from position `c` on. */
  function ReadPiece(crc: Checksum, file: Slice, c: nat): (s: Step)
    requires c <= |file|
    ensures s.next <= |file| && (!s.piece.EndOfFile? ==> c < s.next)
    decreases |file| - c
  {
    var end := BlockEnd(file, c);
    if end - c >= HEADER_SIZE then Parse(crc, file, c, end, LastBlock(file, c))
    else if LastBlock(file, c) then Step(EndOfFile, |file|, 0)
    else ReadPiece(crc, file, end)
  }

  datatype Read = Read(record: Option<Slice>, next: nat, reports: nat)

  function Plus(r: Read, reports: nat): Read { r.(reports := r.reports + reports) }

  /** What a physical record means to a reader that has `scratch` so far, if `inFragment`. */
  datatype Outcome = Stop(record: Option<Slice>, reports: nat) | More(inFragment: bool, scratch: Slice, reports: nat)

  function Handle(piece: Piece, inFragment: bool, scratch: Slice): Outcome
  {
    var unfinished := if inFragment && scratch != [] then 1 else 0;
    match piece
    case EndOfFile => Stop(None, 0)
    case Damaged => More(false, [], if inFragment then 1 else 0)
    case Piece(code, data) =>
      if code == TypeCode(Full) then Stop(Some(data), unfinished)
      else if code == TypeCode(First) then More(true, data, unfinished)
      else if code == TypeCode(Middle) && inFragment then More(true, scratch + data, 0)
      else if code == TypeCode(Last) && inFragment then Stop(Some(scratch + data), 0)
      else More(false, [], 1)
  }

  /** The next logical record. */
  function ReadFrom(crc: Checksum, file: Slice, c: nat, inFragment: bool, scratch: Slice): (r: Read)
    requires c <= |file|
    ensures r.next <= |file| && (r.record.Some? ==> c < r.next)
    decreases |file| - c
  {
    var s := ReadPiece(crc, file, c);
    match Handle(s.piece, inFragment, scratch)
    case Stop(record, reports) => Read(record, s.next, s.reports + reports)
    case More(inFragment', scratch', reports) => Plus(ReadFrom(crc, file, s.next, inFragment', scratch'), s.reports + reports)
  }

  /** All records from position `c` on, and the number of corruption reports. */
  function ReadAll(crc: Checksum, file: Slice, c: nat): (seq<Slice>, nat)
    requires c <= |file|
    decreases |file| - c
  {
    var r := ReadFrom(crc, file, c, false, []);
    match r.record
    case None => ([], r.reports)
    case Some(record) =>
      var rest := ReadAll(crc, file, r.next);
      ([record] + rest.0, r.reports + rest.1)
  }

  lemma SliceOfSlice(file: Slice, c: nat, end: nat, a: nat, b: nat)
    requires c <= end <= |file| && a <= b <= end - c
    ensures file[c..end][a..b] == file[c + a..c + b]
  {
    var block := file[c..end];
    assert forall i :: a <= i < b ==> block[i] == file[c + i];
  }

  // ------------------------------------------------------------------ log::Reader

  class Reader {
    const crc: Checksum
    const file: Slice
    var pos: nat
    var buffer: Slice
    var eof: bool
    var reports: nat

    /** Everything before this position has been consumed. */
    ghost function At(): int
      reads this`pos, this`buffer
    {
      pos - |buffer|
    }

    ghost predicate Valid()
      reads this`pos, this`buffer, this`eof
    {
      && |buffer| <= pos <= |file| && buffer == file[pos - |buffer|..pos]
      && (if eof then pos == |file| else pos % BLOCK_SIZE == 0)
      && (buffer != [] ==> pos == BlockEnd(file, At()) && eof == LastBlock(file, At()))
    }

    constructor (crc: Checksum, file: Slice)
      ensures Valid() && this.crc == crc && this.file == file && At() == 0 && reports == 0
    {
      this.crc, this.file, pos, buffer, eof, reports := crc, file, 0, [], false, 0;
    }

    /** SequentialFile::Read of a whole block. */
    method FillBuffer()
      requires Valid() && !eof && |buffer| < HEADER_SIZE
      modifies this`pos, this`buffer, this`eof
      ensures Valid() && At() == old(pos)
      ensures eof || pos == old(pos) + BLOCK_SIZE
      ensures buffer != [] || eof
    {
      var n := if |file| - pos < BLOCK_SIZE then |file| - pos else BLOCK_SIZE;
      buffer := file[pos..pos + n];
      pos := pos + n;
      if n < BLOCK_SIZE { eof := true; }
    }

    method ReadPhysicalRecord() returns (piece: Piece)
      requires Valid()
      modifies this
      ensures Valid() && reports >= old(reports)
      ensures Step(piece, At(), reports - old(reports)) == ReadPiece(crc, file, old(At()))
    {
      ghost var c := At();
      while |buffer| < HEADER_SIZE
        invariant Valid() && reports == old(reports) && ReadPiece(crc, file, At()) == ReadPiece(crc, file, c)
        decreases if eof then 0 else 1, |file| - pos
      {
        if eof {
          buffer := [];
          return EndOfFile;
        }
        FillBuffer();
      }
      piece := ParseHeader();
    }

    /** Slice::remove_prefix; removing everything is clear. */
    method RemovePrefix(n: nat)
      requires Valid() && n <= |buffer|
      modifies this`buffer
      ensures Valid() && At() == old(At()) + n
    {
      hide NextBlock, BlockEnd, LastBlock;
      ghost var c := At();
      SliceOfSlice(file, c, pos, n, |buffer|);
      if n < |buffer| { StillInBlock(c, n); }
      buffer := buffer[n..];
    }

    lemma StillInBlock(c: nat, n: nat)
      requires Valid() && c == At() && n < |buffer|
      ensures BlockEnd(file, c + n) == BlockEnd(file, c) && LastBlock(file, c + n) == LastBlock(file, c)
    {
      SameBlock(c, c + n);
    }

    /** The header stands at the front of the buffer, which holds the rest of the block. */
    lemma BufferedHeader(c: int)
      requires Valid() && c == At() && |buffer| >= HEADER_SIZE
      ensures 0 <= c && pos == BlockEnd(file, c) == c + |buffer| && eof == LastBlock(file, c) && buffer == file[c..pos] && pos <= |file|
      ensures buffer[4] == file[c + 4] && buffer[5] == file[c + 5] && buffer[6] == file[c + 6]
    {
    }

    method ParseHeader() returns (piece: Piece)
      requires Valid() && |buffer| >= HEADER_SIZE
      modifies this
      ensures Valid() && reports >= old(reports)
      ensures Step(piece, At(), reports - old(reports)) == Parse(crc, file, old(At()), BlockEnd(file, old(At())), LastBlock(file, old(At())))
    {
      hide CrcOf, Unmask, FixedValue, NextBlock, BlockEnd, LastBlock, Valid;
      ghost var c := At();
      BufferedHeader(c);
      var length := buffer[4] as nat + 256 * buffer[5] as nat;
      var code := buffer[6];
      if HEADER_SIZE + length > |buffer| {
        RemovePrefix(|buffer|);
        if !eof {
          reports := reports + 1;
          return Damaged;
        }
        return EndOfFile;
      }
      if code == 0 && length == 0 {
        RemovePrefix(|buffer|);
        return Damaged;
      }
      var data := buffer[HEADER_SIZE..HEADER_SIZE + length];
      var expected := Unmask(FixedValue(buffer[..4]));
      var actual := CrcOf(crc, code, data);
      SliceOfSlice(file, c, pos, HEADER_SIZE, HEADER_SIZE + length);
      SliceOfSlice(file, c, pos, 0, 4);
      if actual != expected {
        RemovePrefix(|buffer|);
        reports := reports + 1;
        return Damaged;
      }
      RemovePrefix(HEADER_SIZE + length);
      piece := Piece(code, data);
    }

    method ReadRecord() returns (record: Option<Slice>)
      requires Valid()
      modifies this
      ensures Valid() && reports >= old(reports)
      ensures Read(record, At(), reports - old(reports)) == ReadFrom(crc, file, old(At()), false, [])
    {
      hide ReadPiece;
      var scratch: Slice := [];
      var inFragment := false;
      ghost var whole := ReadFrom(crc, file, At(), false, []);
      while true
        invariant Valid() && reports >= old(reports) && (!inFragment ==> scratch == [])
        invariant Plus(ReadFrom(crc, file, At(), inFragment, scratch), reports - old(reports)) == whole
        decreases |file| - At()
      {
        var piece := ReadPhysicalRecord();
        if piece.EndOfFile? { return None; }
        var done;
        done, record, inFragment, scratch := HandlePiece(piece, inFragment, scratch);
        if done { return; }
      }
    }

    /** The switch over record types. */
    method HandlePiece(piece: Piece, inFragment: bool, scratch: Slice)
      returns (done: bool, record: Option<Slice>, inFragment': bool, scratch': Slice)
      requires !piece.EndOfFile? && (!inFragment ==> scratch == [])
      modifies this`reports
      ensures reports >= old(reports) && (!inFragment' ==> scratch' == [])
      ensures Handle(piece, inFragment, scratch) ==
              if done then Stop(record, reports - old(reports)) else More(inFragment', scratch', reports - old(reports))
    {
      done, record, inFragment', scratch' := false, None, inFragment, scratch;
      match piece
      case Damaged =>
        if inFragment {
          reports, inFragment', scratch' := reports + 1, false, [];
        }
      case Piece(code, data) =>
        if code == TypeCode(Full) {
          if inFragment && scratch != [] { reports := reports + 1; }
          done, record := true, Some(data);
        } else if code == TypeCode(First) {
          if inFragment && scratch != [] { reports := reports + 1; }
          scratch', inFragment' := data, true;
        } else if code == TypeCode(Middle) {
          if !inFragment {
            reports := reports + 1;
          } else {
            scratch' := scratch + data;
          }
        } else if code == TypeCode(Last) {
          if !inFragment {
            reports := reports + 1;
          } else {
            done, record := true, Some(scratch + data);
          }
        } else {
          reports, inFragment', scratch' := reports + 1, false, [];
        }
    }
  }

  // ------------------------------------------------------------------ reading what was written

  /** `part` stands in the file from position `c` on, as far as the file goes. */
  ghost predicate Holds(file: Slice, c: nat, part: Slice)
  {
    c <= |file| && forall i :: 0 <= i < |part| && c + i < |file| ==> file[c + i] == part[i]
  }

  lemma HoldsParts(file: Slice, c: nat, a: Slice, b: Slice)
    requires Holds(file, c, a + b)
    ensures Holds(file, c, a)
    ensures c + |a| <= |file| ==> Holds(file, c + |a|, b)
  {
    assert forall i :: 0 <= i < |a| ==> (a + b)[i] == a[i];
    forall i | 0 <= i < |b| && c + |a| + i < |file|
      ensures file[c + |a| + i] == b[i]
    {
      assert (a + b)[|a| + i] == b[i];
    }
  }

  lemma HoldsWhole(file: Slice, c: nat, part: Slice)
    requires Holds(file, c, part) && c + |part| <= |file|
    ensures file[c..c + |part|] == part
  {
  }

  /** An aligned header that is all there. */
  lemma PhysicalRead(crc: Checksum, file: Slice, c: nat, t: RecordType, data: Slice)
    requires !t.Zero? && HEADER_SIZE + |data| <= Leftover(c) && Holds(file, c, Physical(crc, t, data))
    requires c + HEADER_SIZE + |data| <= |file|
    ensures ReadPiece(crc, file, c) == Step(Piece(TypeCode(t), data), c + HEADER_SIZE + |data|, 0)
  {
    hide Fixed, Mask, Unmask, FixedValue, CrcOf, Holds, Leftover, Physical;
    PhysicalHeld(crc, file, c, t, data);
    StoredCrc(CrcOf(crc, TypeCode(t), data));
    EndsBehind(file, c, HEADER_SIZE + |data|);
  }

  lemma EndsBehind(file: Slice, c: nat, n: nat)
    requires n <= Leftover(c) && c + n <= |file|
    ensures c + n <= BlockEnd(file, c) <= |file|
  {
  }

  /** The parts of a physical record where they stand. */
  lemma PhysicalHeld(crc: Checksum, file: Slice, c: nat, t: RecordType, data: Slice)
    requires |data| < 0x10000 && Holds(file, c, Physical(crc, t, data)) && c + HEADER_SIZE + |data| <= |file|
    ensures file[c + 4] as nat + 256 * file[c + 5] as nat == |data| && file[c + 6] == TypeCode(t)
    ensures file[c..c + 4] == Fixed(Mask(CrcOf(crc, TypeCode(t), data)), 4)
    ensures file[c + HEADER_SIZE..c + HEADER_SIZE + |data|] == data
  {
    hide Fixed, Mask, CrcOf;
    var code := TypeCode(t);
    var masked := Mask(CrcOf(crc, code, data));
    var head := [(|data| % 256) as byte, (|data| / 256) as byte, code];
    assert Physical(crc, t, data) == Fixed(masked, 4) + (head + data);
    HoldsParts(file, c, Fixed(masked, 4), head + data);
    HoldsParts(file, c + 4, head, data);
    HoldsWhole(file, c, Fixed(masked, 4));
    HoldsWhole(file, c + HEADER_SIZE, data);
    assert file[c + 4] == head[0] && file[c + 4 + 1] == head[1] && file[c + 4 + 2] == head[2];
  }

  lemma StoredCrc(crc: nat)
    requires crc < TWO_32
    ensures Unmask(FixedValue(Fixed(Mask(crc), 4))) == crc
  {
    assert Pow256(4) == TWO_32;
    FixedRoundTrip(Mask(crc), 4);
    UnmaskMask(crc);
  }

  /** An aligned header that is cut off. */
  lemma PhysicalCut(crc: Checksum, file: Slice, c: nat, t: RecordType, data: Slice)
    requires HEADER_SIZE + |data| <= Leftover(c) && Holds(file, c, Physical(crc, t, data))
    requires c + HEADER_SIZE + |data| > |file|
    ensures ReadPiece(crc, file, c) == Step(EndOfFile, |file|, 0)
  {
    hide Fixed, Mask, Unmask, FixedValue, CrcOf;
    if c + HEADER_SIZE <= |file| {
      var p := Physical(crc, t, data);
      assert file[c + 4] == p[4] && file[c + 5] == p[5];
    }
  }

  /** A trailer too short for a header is skipped, if it is all there. */
  lemma TrailerSkipped(crc: Checksum, file: Slice, c: nat)
    requires c <= |file|
    ensures Aligned(c) <= |file| ==> ReadPiece(crc, file, c) == ReadPiece(crc, file, Aligned(c))
    ensures Aligned(c) > |file| ==> ReadPiece(crc, file, c) == Step(EndOfFile, |file|, 0)
  {
    hide Parse;
  }

  /** A fragment of a record, whole or cut off. */
  lemma FragmentRead(crc: Checksum, file: Slice, c: nat, data: Slice, begin: bool)
    requires Holds(file, c, Fragment(crc, c, data, begin))
    ensures var n := FragmentLength(c, data);
            var end := c + |Fragment(crc, c, data, begin)|;
            ReadPiece(crc, file, c) ==
            if end <= |file| then Step(Piece(TypeCode(TypeOf(begin, n == |data|)), data[..n]), end, 0) else Step(EndOfFile, |file|, 0)
  {
    hide Physical, ReadPiece, FragmentLength;
    TrailerSkipped(crc, file, c);
    var a, n := Aligned(c), FragmentLength(c, data);
    var t := TypeOf(begin, n == |data|);
    HoldsParts(file, c, Zeros(a - c), Physical(crc, t, data[..n]));
    if a <= |file| {
      if a + HEADER_SIZE + n <= |file| {
        PhysicalRead(crc, file, a, t, data[..n]);
      } else {
        PhysicalCut(crc, file, a, t, data[..n]);
      }
    }
  }

  /** A record, whole or cut off: it is returned whole or not at all, and nothing is reported. */
  lemma {:induction false} RecordRead(crc: Checksum, file: Slice, c: nat, data: Slice, begin: bool, scratch: Slice)
    requires Holds(file, c, Encode(crc, c, data, begin)) && (begin ==> scratch == [])
    ensures var end := c + |Encode(crc, c, data, begin)|;
            ReadFrom(crc, file, c, !begin, scratch) == if end <= |file| then Read(Some(scratch + data), end, 0) else Read(None, |file|, 0)
    decreases |data|, if FragmentLength(c, data) == 0 then 1 else 0
  {
    hide Encode, Fragment, FragmentLength, ReadPiece, Holds;
    var n := FragmentLength(c, data);
    var f := Fragment(crc, c, data, begin);
    EncodeStep(crc, c, data, begin);
    if n == |data| {
      FragmentRead(crc, file, c, data, begin);
      assert data[..n] == data;
      assert begin ==> scratch + data == data;
    } else {
      HoldsParts(file, c, f, Encode(crc, c + |f|, data[n..], false));
      FragmentRead(crc, file, c, data, begin);
      if c + |f| <= |file| {
        RecordRead(crc, file, c + |f|, data[n..], false, scratch + data[..n]);
        assert scratch + data[..n] + data[n..] == scratch + data;
        assert begin ==> scratch + data[..n] == data[..n];
      }
    }
  }

  /** How many of the records of a log end within its first `n` bytes. */
  function Whole(crc: Checksum, c: nat, records: seq<Slice>, n: nat): (k: nat)
    ensures k <= |records|
    decreases |records|
  {
    if records == [] then 0 else
      var end := c + |Encode(crc, c, records[0], true)|;
      if end > n then 0 else 1 + Whole(crc, end, records[1..], n)
  }

  lemma {:induction false} WholeIs(crc: Checksum, c: nat, records: seq<Slice>, n: nat)
    requires c <= n
    ensures c + |LogFrom(crc, c, records[..Whole(crc, c, records, n)])| <= n
    ensures forall k :: Whole(crc, c, records, n) < k <= |records| ==> c + |LogFrom(crc, c, records[..k])| > n
    decreases |records|
  {
    hide Encode;
    if records != [] {
      var end := c + |Encode(crc, c, records[0], true)|;
      forall k | 0 < k <= |records|
        ensures |LogFrom(crc, c, records[..k])| == end - c + |LogFrom(crc, end, records[1..][..k - 1])|
      {
        assert records[..k][1..] == records[1..][..k - 1];
      }
      if end <= n {
        WholeIs(crc, end, records[1..], n);
      }
    }
  }

  /** Any prefix of a log reads as the records that end within it, and reports no corruption. */
  lemma {:induction false} PrefixReads(crc: Checksum, file: Slice, c: nat, records: seq<Slice>)
    requires Holds(file, c, LogFrom(crc, c, records)) && |file| <= c + |LogFrom(crc, c, records)|
    ensures ReadAll(crc, file, c) == (records[..Whole(crc, c, records, |file|)], 0)
    decreases |records|
  {
    hide Encode, ReadPiece;
    if records == [] {
      EndReads(crc, file);
    } else {
      hide ReadFrom, Holds;
      var e := Encode(crc, c, records[0], true);
      var end := c + |e|;
      HoldsParts(file, c, e, LogFrom(crc, end, records[1..]));
      RecordRead(crc, file, c, records[0], true, []);
      if end <= |file| {
        PrefixReads(crc, file, end, records[1..]);
        var k := Whole(crc, end, records[1..], |file|);
        assert [] + records[0] == records[0];
        assert records[..k + 1] == [records[0]] + records[1..][..k];
      }
    }
  }

  lemma EndReads(crc: Checksum, file: Slice)
    ensures ReadAll(crc, file, |file|) == ([], 0)
  {
    assert ReadPiece(crc, file, |file|) == Step(EndOfFile, |file|, 0);
  }

  /**
   * Reading the first `n` bytes of a log returns, in order, exactly the records whose last
   * fragment lies in those bytes, and reports no corruption.
   */
  lemma TruncatedLog(crc: Checksum, records: seq<Slice>, n: nat)
    requires n <= |LogFrom(crc, 0, records)|
    ensures var file := LogFrom(crc, 0, records)[..n];
            var k := Whole(crc, 0, records, n);
            && ReadAll(crc, file, 0) == (records[..k], 0)
            && |LogFrom(crc, 0, records[..k])| <= n
            && (k < |records| ==> n < |LogFrom(crc, 0, records[..k + 1])|)
  {
    PrefixReads(crc, LogFrom(crc, 0, records)[..n], 0, records);
    WholeIs(crc, 0, records, n);
  }

  lemma HoldsItself(file: Slice)
    ensures Holds(file, 0, file)
  {
  }

  lemma LogRoundTrip(crc: Checksum, records: seq<Slice>)
    ensures ReadAll(crc, LogFrom(crc, 0, records), 0) == (records, 0)
  {
    hide *;
    var log := LogFrom(crc, 0, records);
    HoldsItself(log);
    PrefixReads(crc, log, 0, records);
    WholeIs(crc, 0, records, |log|);
    assert records[..|records|] == records;
  }
}
