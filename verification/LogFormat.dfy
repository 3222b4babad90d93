/** The write-ahead log format (db/log_format.h, db/log_writer.cc): records cut into checksummed fragments. */
module LogFormat {
  import opened Bytes
  import opened InternalKeys
  import opened Coding

  const BLOCK_SIZE: nat := 32768
  const HEADER_SIZE: nat := 7

  /** A checksum of the type byte and the payload; which one it is does not matter here. */
  type Checksum = Slice -> nat

  // ------------------------------------------------------------------ masked checksums (util/crc32c.h)

  const MASK_DELTA: nat := 0xa282ead8

  /** Rotate right by 15 bits and add a constant. */
  function Mask(crc: nat): (r: nat)
    ensures r < TWO_32
  {
    (crc / 0x8000 + crc * 0x2_0000 % TWO_32 + MASK_DELTA) % TWO_32
  }

  function Unmask(masked: nat): nat
  {
    var rot := (masked + TWO_32 - MASK_DELTA) % TWO_32;
    rot / 0x2_0000 + rot * 0x8000 % TWO_32
  }

  lemma UnmaskMask(crc: nat)
    requires crc < TWO_32
    ensures Unmask(Mask(crc)) == crc
  {
    var hi, lo := crc / 0x8000, crc % 0x8000;
    assert crc * 0x2_0000 % TWO_32 == lo * 0x2_0000;
    var rot := hi + lo * 0x2_0000;
    assert (Mask(crc) + TWO_32 - MASK_DELTA) % TWO_32 == rot;
    assert rot / 0x2_0000 == lo;
    assert rot * 0x8000 % TWO_32 == hi * 0x8000;
  }

  // ------------------------------------------------------------------ fragments

  datatype RecordType = Zero | Full | First | Middle | Last

  function TypeCode(t: RecordType): byte
  {
    match t case Zero => 0 case Full => 1 case First => 2 case Middle => 3 case Last => 4
  }

  function CrcOf(crc: Checksum, t: byte, data: Slice): (r: nat)
    ensures r < TWO_32
  {
    crc([t] + data) % TWO_32
  }

  /** A physical record: masked checksum, length, type, payload. */
  function Physical(crc: Checksum, t: RecordType, data: Slice): (r: Slice)
    requires |data| < 0x10000
    ensures |r| == HEADER_SIZE + |data|
  {
    Fixed(Mask(CrcOf(crc, TypeCode(t), data)), 4) + [(|data| % 256) as byte, (|data| / 256) as byte, TypeCode(t)] + data
  }

  /** Bytes left in the block at file position `c`. */
  function Leftover(c: nat): (r: nat)
    ensures 0 < r <= BLOCK_SIZE
  {
    BLOCK_SIZE - c % BLOCK_SIZE
  }

  /** Where the next fragment goes: a trailer too short for a header is skipped. */
  function Aligned(c: nat): (r: nat)
    ensures c <= r < c + HEADER_SIZE && Leftover(r) >= HEADER_SIZE
    ensures r != c ==> r % BLOCK_SIZE == 0
  {
    if Leftover(c) < HEADER_SIZE then c + Leftover(c) else c
  }

  function FragmentLength(c: nat, data: Slice): (n: nat)
    ensures n <= |data| && HEADER_SIZE + n <= Leftover(Aligned(c))
  {
    var avail := Leftover(Aligned(c)) - HEADER_SIZE;
    if |data| < avail then |data| else avail
  }

  function TypeOf(begin: bool, end: bool): RecordType
  {
    if begin && end then Full else if begin then First else if end then Last else Middle
  }

  /** The trailer, if any, and the next fragment of `data` for a file of length `c`. */
  function Fragment(crc: Checksum, c: nat, data: Slice, begin: bool): (r: Slice)
    ensures |r| == Aligned(c) - c + HEADER_SIZE + FragmentLength(c, data)
  {
    var n := FragmentLength(c, data);
    Zeros(Aligned(c) - c) + Physical(crc, TypeOf(begin, n == |data|), data[..n])
  }

  /** What AddRecord appends to a file of length `c` for (the rest of) a record. */
  function Encode(crc: Checksum, c: nat, data: Slice, begin: bool): (r: Slice)
    ensures |r| >= HEADER_SIZE
    decreases |data|, if FragmentLength(c, data) == 0 then 1 else 0
  {
    var n := FragmentLength(c, data);
    var f := Fragment(crc, c, data, begin);
    if n == |data| then f else f + Encode(crc, c + |f|, data[n..], false)
  }

  /** Either the fragment is all, or the rest follows; an empty fragment is followed by one that is not. */
  lemma EncodeStep(crc: Checksum, c: nat, data: Slice, begin: bool)
    ensures var n := FragmentLength(c, data);
            var f := Fragment(crc, c, data, begin);
            && Encode(crc, c, data, begin) == (if n == |data| then f else f + Encode(crc, c + |f|, data[n..], false))
            && (n < |data| ==> n > 0 || FragmentLength(c + |f|, data[n..]) > 0)
  {
    hide Fragment, FragmentLength, Aligned, Leftover;
    var n := FragmentLength(c, data);
    if n == 0 < |data| {
      NextHasRoom(c, data);
    }
  }

  /** A fragment is empty only where the block ends behind its header. */
  lemma NextHasRoom(c: nat, data: Slice)
    requires FragmentLength(c, data) == 0 < |data|
    ensures FragmentLength(Aligned(c) + HEADER_SIZE, data) > 0
  {
    var end := Aligned(c) + HEADER_SIZE;
    assert Leftover(Aligned(c)) == HEADER_SIZE;
    assert Aligned(c) % BLOCK_SIZE == BLOCK_SIZE - HEADER_SIZE;
    assert end % BLOCK_SIZE == 0;
  }

  /** A log of `records` appended to a file of length `c`. */
  function LogFrom(crc: Checksum, c: nat, records: seq<Slice>): Slice
    decreases |records|
  {
    if records == [] then [] else
      var e := Encode(crc, c, records[0], true);
      e + LogFrom(crc, c + |e|, records[1..])
  }

  lemma {:induction false} LogAppend(crc: Checksum, c: nat, records: seq<Slice>, record: Slice)
    ensures LogFrom(crc, c, records + [record]) ==
            LogFrom(crc, c, records) + Encode(crc, c + |LogFrom(crc, c, records)|, record, true)
    decreases |records|
  {
    hide Encode;
    var more := records + [record];
    if records == [] {
      assert more[1..] == [];
    } else {
      assert more[1..] == records[1..] + [record];
      LogAppend(crc, c + |Encode(crc, c, records[0], true)|, records[1..], record);
    }
  }

  // ------------------------------------------------------------------ log::Writer

  class Writer {
    const crc: Checksum
    var dest: Slice
    var blockOffset: nat

    ghost predicate Valid()
      reads this
    {
      blockOffset <= BLOCK_SIZE && blockOffset % BLOCK_SIZE == |dest| % BLOCK_SIZE
    }

    constructor (crc: Checksum, dest: Slice)
      ensures Valid() && this.dest == dest && this.crc == crc
    {
      this.crc, this.dest, blockOffset := crc, dest, |dest| % BLOCK_SIZE;
    }

    method AddRecord(slice: Slice)
      requires Valid()
      modifies this
      ensures Valid() && dest == old(dest) + Encode(crc, |old(dest)|, slice, true)
    {
      hide *;
      var left := slice;
      var begin := true;
      ghost var target := dest + Encode(crc, |dest|, slice, true);
      while true
        invariant Valid() && dest + Encode(crc, |dest|, left, begin) == target
        decreases |left|, if FragmentLength(|dest|, left) == 0 then 1 else 0
      {
        ghost var before := dest;
        ghost var f := Fragment(crc, |dest|, left, begin);
        EncodeStep(crc, |dest|, left, begin);
        var n := AddFragment(left, begin);
        if n == |left| { break; }
        assert |dest| == |before| + |f|;
        assert before + (f + Encode(crc, |dest|, left[n..], false)) == dest + Encode(crc, |dest|, left[n..], false);
        left := left[n..];
        begin := false;
      }
    }

    /** One round of the loop. */
    method AddFragment(left: Slice, begin: bool) returns (n: nat)
      requires Valid()
      modifies this
      ensures Valid() && dest == old(dest) + Fragment(crc, |old(dest)|, left, begin)
      ensures n == FragmentLength(|old(dest)|, left)
    {
      hide Physical, Fragment, Valid, Leftover, Aligned, Zeros, FragmentLength;
      ghost var c := |dest|;
      SkipTrailer();
      var avail := BLOCK_SIZE - blockOffset - HEADER_SIZE;
      n := if |left| < avail then |left| else avail;
      var end := |left| == n;
      FragmentIs(c, left, begin);
      ghost var padded := dest;
      EmitPhysicalRecord(TypeOf(begin, end), left[..n]);
      assert dest == old(dest) + (Zeros(Aligned(c) - c) + Physical(crc, TypeOf(begin, end), left[..n]));
    }

    /** A trailer with no room for a header is filled, and the next block begins. */
    method SkipTrailer()
      requires Valid()
      modifies this
      ensures dest == old(dest) + Zeros(Aligned(|old(dest)|) - |old(dest)|)
      ensures blockOffset == BLOCK_SIZE - Leftover(Aligned(|old(dest)|)) && blockOffset + HEADER_SIZE <= BLOCK_SIZE
      ensures Valid()
    {
      ghost var c := |dest|;
      assert blockOffset == c % BLOCK_SIZE || (blockOffset == BLOCK_SIZE && c % BLOCK_SIZE == 0);
      var leftover := BLOCK_SIZE - blockOffset;
      if leftover < HEADER_SIZE {
        if leftover > 0 {
          dest := dest + Zeros(leftover);
        }
        blockOffset := 0;
      }
      assert dest == old(dest) + Zeros(Aligned(c) - c);
    }

    static lemma SameOffset(a: nat, b: nat, n: nat)
      requires a % BLOCK_SIZE == b % BLOCK_SIZE
      ensures (a + n) % BLOCK_SIZE == (b + n) % BLOCK_SIZE
    {
    }

    lemma FragmentIs(c: nat, left: Slice, begin: bool)
      ensures var n := FragmentLength(c, left);
              && n == (if |left| < Leftover(Aligned(c)) - HEADER_SIZE then |left| else Leftover(Aligned(c)) - HEADER_SIZE)
              && Fragment(crc, c, left, begin) == Zeros(Aligned(c) - c) + Physical(crc, TypeOf(begin, n == |left|), left[..n])
    {
      hide Physical, Zeros;
    }

    method EmitPhysicalRecord(t: RecordType, data: Slice)
      requires Valid() && |data| < 0x10000 && blockOffset + HEADER_SIZE + |data| <= BLOCK_SIZE
      modifies this
      ensures Valid() && dest == old(dest) + Physical(crc, t, data)
      ensures blockOffset == old(blockOffset) + HEADER_SIZE + |data|
    {
      SameOffset(blockOffset, |dest|, HEADER_SIZE + |data|);
      var masked := Mask(CrcOf(crc, TypeCode(t), data));
      dest := dest + Fixed(masked, 4) + [(|data| % 256) as byte, (|data| / 256) as byte, TypeCode(t)];
      dest := dest + data;
      blockOffset := blockOffset + HEADER_SIZE + |data|;
    }
  }
}
