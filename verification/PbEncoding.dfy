/** nanopb's encoder (pb_encode.c): the bytes of a message, and the two passes that write it with its lengths in front. */
module PbEncoding {
  import opened Bytes
  import opened InternalKeys
  import opened Coding
  import opened PbScalars
  import opened PbFields

  // ------------------------------------------------------------------ the bytes of a message

  const WT_VARINT: nat := 0
  const WT_64BIT: nat := 1
  const WT_STRING: nat := 2
  const WT_32BIT: nat := 5

  predicate Packable(kind: FieldType) { kind.Number? }

  function WireType(kind: FieldType): (w: nat)
    ensures w < 8
  {
    match kind
    case Number(Fixed32) => WT_32BIT
    case Number(Fixed64) => WT_64BIT
    case Number(_) => WT_VARINT
    case _ => WT_STRING
  }

  function TagBytes(tag: nat, wireType: nat): Slice { VarintBytes(8 * tag + wireType) }

  function FieldTag(f: Field): Slice { TagBytes(f.tag, WireType(f.kind)) }

  /** One after the other; nothing if either cannot be encoded. */
  function Join(a: Option<Slice>, b: Option<Slice>): Option<Slice>
  {
    if a.Some? && b.Some? then Some(a.value + b.value) else None
  }

  function Prefix(e: Option<Slice>): Option<Slice>
  {
    if e.Some? then Some(LengthPrefixed(e.value)) else None
  }

  /** A message is its fields in the order of their descriptors; None if some array or bytes do not fit their field. */
  function EncMessage(ty: MessageType, m: Message): Option<Slice>
    requires Typed(ty, m)
    decreases ty, 4
  {
    EncFields(ty, m, |ty.fields|)
  }

  function EncFields(ty: MessageType, m: Message, i: nat): Option<Slice>
    requires Typed(ty, m) && i <= |ty.fields|
    decreases ty, 3, i
  {
    if i == 0 then Some([]) else Join(EncFields(ty, m, i - 1), EncCell(ty, i - 1, m.cells[i - 1]))
  }

  function EncCell(ty: MessageType, i: nat, c: Cell): Option<Slice>
    requires i < |ty.fields| && TypedCell(ty, i, c)
    decreases ty, 2
  {
    var f := ty.fields[i];
    match f.rule
    case Required => Join(Some(FieldTag(f)), EncValue(ty, i, c.value))
    case Optional => if c.has then Join(Some(FieldTag(f)), EncValue(ty, i, c.value)) else Some([])
    case Repeated(most) =>
      if c.items == [] then Some([])
      else if |c.items| > most then None
      else if Packable(f.kind) then Some(TagBytes(f.tag, WT_STRING) + LengthPrefixed(EncPacked(ty, i, c.items, |c.items|)))
      else EncItems(ty, i, c.items, |c.items|)
  }

  function EncItems(ty: MessageType, i: nat, items: seq<Value>, k: nat): Option<Slice>
    requires i < |ty.fields| && k <= |items| && forall j :: 0 <= j < |items| ==> TypedValue(ty, i, items[j])
    decreases ty, 1, k
  {
    if k == 0 then Some([])
    else Join(EncItems(ty, i, items, k - 1), Join(Some(FieldTag(ty.fields[i])), EncValue(ty, i, items[k - 1])))
  }

  function EncPacked(ty: MessageType, i: nat, items: seq<Value>, k: nat): Slice
    requires i < |ty.fields| && Packable(ty.fields[i].kind)
    requires k <= |items| && forall j :: 0 <= j < |items| ==> TypedValue(ty, i, items[j])
  {
    if k == 0 then [] else EncPacked(ty, i, items, k - 1) + ScalarBytes(ty.fields[i].kind.scalar, items[k - 1].n)
  }

  function EncValue(ty: MessageType, i: nat, v: Value): Option<Slice>
    requires i < |ty.fields| && TypedValue(ty, i, v)
    decreases ty, 0
  {
    match ty.fields[i].kind
    case Number(scalar) => Some(ScalarBytes(scalar, v.n))
    case Bytes(size) => if |v.bytes| > size then None else Some(LengthPrefixed(v.bytes))
    case Text(_) => Some(LengthPrefixed(v.bytes))
    case FixedBytes(_) => Some(LengthPrefixed(v.bytes))
    case Submessage(sub) => Prefix(EncMessage(sub, v.message))
  }

  // ------------------------------------------------------------------ output streams

  datatype State = State(writing: bool, out: Slice, written: nat, most: nat)

  predicate Sane(s: State) { s.writing ==> s.written <= s.most }

  /**
   * What encoding `e` from state `s` comes to: it goes well exactly if `e` can be encoded at all and fits, and then adds
   * those bytes. A stream that is sizing only counts them, and is never full.
   */
  predicate Encodes(s: State, e: Option<Slice>, ok: bool, t: State)
  {
    && Sane(t) && t.writing == s.writing && t.most == s.most
    && (ok <==> e.Some? && (s.writing ==> s.written + |e.value| <= s.most))
    && (ok ==> t.written == s.written + |e.value| && t.out == if s.writing then s.out + e.value else s.out)
  }

  lemma ThenMore(s: State, e1: Option<Slice>, t: State, e2: Option<Slice>, ok: bool, u: State)
    requires Encodes(s, e1, true, t) && Encodes(t, e2, ok, u)
    ensures Encodes(s, Join(e1, e2), ok, u)
  {
    if e2.Some? && s.writing {
      assert s.out + (e1.value + e2.value) == (s.out + e1.value) + e2.value;
    }
  }

  lemma StaysFailed(s: State, e1: Option<Slice>, t: State, e2: Option<Slice>)
    requires Encodes(s, e1, false, t)
    ensures Encodes(s, Join(e1, e2), false, t)
  {
  }

  lemma {:induction false} FieldsStayFailed(s: State, ty: MessageType, m: Message, i: nat, n: nat, t: State)
    requires Typed(ty, m) && i <= n <= |ty.fields| && Encodes(s, EncFields(ty, m, i), false, t)
    ensures Encodes(s, EncFields(ty, m, n), false, t)
  {
    hide Encodes, EncCell;
    if i < n {
      FieldsStayFailed(s, ty, m, i, n - 1, t);
      StaysFailed(s, EncFields(ty, m, n - 1), t, EncCell(ty, n - 1, m.cells[n - 1]));
    }
  }

  lemma {:induction false} ItemsStayFailed(s: State, ty: MessageType, i: nat, items: seq<Value>, k: nat, n: nat, t: State)
    requires i < |ty.fields| && k <= n <= |items| && forall j :: 0 <= j < |items| ==> TypedValue(ty, i, items[j])
    requires Encodes(s, EncItems(ty, i, items, k), false, t)
    ensures Encodes(s, EncItems(ty, i, items, n), false, t)
  {
    hide Encodes, EncValue;
    if k < n {
      ItemsStayFailed(s, ty, i, items, k, n - 1, t);
      StaysFailed(s, EncItems(ty, i, items, n - 1), t, Join(Some(FieldTag(ty.fields[i])), EncValue(ty, i, items[n - 1])));
    }
  }

  lemma {:induction false} PackedStaysFailed(s: State, ty: MessageType, i: nat, items: seq<Value>, k: nat, n: nat, t: State)
    requires i < |ty.fields| && Packable(ty.fields[i].kind)
    requires k <= n <= |items| && forall j :: 0 <= j < |items| ==> TypedValue(ty, i, items[j])
    requires Encodes(s, Some(EncPacked(ty, i, items, k)), false, t)
    ensures Encodes(s, Some(EncPacked(ty, i, items, n)), false, t)
  {
    if k < n {
      PackedStaysFailed(s, ty, i, items, k, n - 1, t);
    }
  }

  /** pb_ostream_t: the bytes behind its pointer, or, without a callback, a mere count. */
  class OStream {
    var writing: bool
    var out: Slice
    var bytesWritten: nat
    var maxSize: nat

    function Now(): State
      reads this
    {
      State(writing, out, bytesWritten, maxSize)
    }

    /** pb_ostream_from_buffer. */
    constructor FromBuffer(size: nat)
      ensures Now() == State(true, [], 0, size)
    {
      writing, out, bytesWritten, maxSize := true, [], 0, size;
    }

    /** PB_OSTREAM_SIZING. */
    constructor Sizing()
      ensures Now() == State(false, [], 0, 0)
    {
      writing, out, bytesWritten, maxSize := false, [], 0, 0;
    }

    /** pb_write; a stream that is sizing may be given no bytes, only how many they are. */
    method Write(buf: Slice)
      returns (ok: bool)
      requires Sane(Now())
      modifies this
      ensures Encodes(old(Now()), Some(buf), ok, Now())
    {
      if writing {
        if bytesWritten + |buf| > maxSize {
          return false;
        }
        out := out + buf;
      }
      bytesWritten := bytesWritten + |buf|;
      return true;
    }

    method Count(size: nat)
      requires !writing
      modifies this
      ensures Now() == old(Now()).(written := old(bytesWritten) + size)
    {
      bytesWritten := bytesWritten + size;
    }
  }

  // ------------------------------------------------------------------ the encoder

  method EncodeVarint(stream: OStream, value: nat) returns (ok: bool)
    requires Sane(stream.Now())
    modifies stream
    ensures Encodes(old(stream.Now()), Some(VarintBytes(value)), ok, stream.Now())
  {
    var buffer := PbEncodeVarint(value);
    ok := stream.Write(buffer);
  }

  method EncodeTagForField(stream: OStream, f: Field) returns (ok: bool)
    requires Sane(stream.Now())
    modifies stream
    ensures Encodes(old(stream.Now()), Some(FieldTag(f)), ok, stream.Now())
  {
    var wireType := match f.kind
      case Number(Fixed32) => WT_32BIT
      case Number(Fixed64) => WT_64BIT
      case Number(_) => WT_VARINT
      case _ => WT_STRING;
    ok := EncodeVarint(stream, 8 * f.tag + wireType);
  }

  /** pb_encode_string. */
  method EncodeString(stream: OStream, buffer: Slice) returns (ok: bool)
    requires Sane(stream.Now())
    modifies stream
    ensures Encodes(old(stream.Now()), Some(LengthPrefixed(buffer)), ok, stream.Now())
  {
    hide Encodes, VarintBytes;
    ghost var s := stream.Now();
    ok := EncodeVarint(stream, |buffer|);
    ghost var t := stream.Now();
    if !ok {
      StaysFailed(s, Some(VarintBytes(|buffer|)), t, Some(buffer));
      return;
    }
    assert Sane(t) by { SaneAfter(s, Some(VarintBytes(|buffer|)), ok, t); }
    ok := stream.Write(buffer);
    ThenMore(s, Some(VarintBytes(|buffer|)), t, Some(buffer), ok, stream.Now());
  }

  lemma SaneAfter(s: State, e: Option<Slice>, ok: bool, t: State)
    requires Encodes(s, e, ok, t)
    ensures Sane(t)
  {
  }

  /** The encoders of numbers, pb_enc_varint, pb_enc_uvarint, pb_enc_svarint, pb_enc_fixed32 and pb_enc_fixed64. */
  method EncodeNumber(stream: OStream, scalar: Scalar, n: int) returns (ok: bool)
    requires Sane(stream.Now()) && WidthOk(scalar) && InRange(scalar, n)
    modifies stream
    ensures Encodes(old(stream.Now()), Some(ScalarBytes(scalar, n)), ok, stream.Now())
  {
    hide Encodes, VarintBytes;
    match scalar {
      case Int(_) =>
        ok := EncodeVarint(stream, Unsigned(n));
      case UInt(_) =>
        ok := EncodeVarint(stream, n);
      case SInt(_) =>
        ZigZagRoundTrip(n);
        ok := EncodeVarint(stream, ZigZag(n));
      case Fixed32 =>
        ok := stream.Write(Fixed(n, 4));
      case Fixed64 =>
        ok := stream.Write(Fixed(n, 8));
    }
  }

  /** PB_ENCODERS: pb_enc_bytes, pb_enc_string, pb_enc_fixed_length_bytes, pb_enc_submessage and those of numbers. */
  method EncodeValue(stream: OStream, ty: MessageType, i: nat, v: Value) returns (ok: bool)
    requires Sane(stream.Now()) && WellFormed(ty) && i < |ty.fields| && TypedValue(ty, i, v)
    modifies stream
    ensures Encodes(old(stream.Now()), EncValue(ty, i, v), ok, stream.Now())
    decreases ty, 0
  {
    hide VarintBytes, ScalarBytes;
    assert FieldOk(ty, i);
    match ty.fields[i].kind {
      case Number(scalar) =>
        ok := EncodeNumber(stream, scalar, v.n);
      case Bytes(size) =>
        if |v.bytes| > size {
          return false;
        }
        ok := EncodeString(stream, v.bytes);
      case Text(_) =>
        ok := EncodeString(stream, v.bytes);
      case FixedBytes(_) =>
        ok := EncodeString(stream, v.bytes);
      case Submessage(sub) =>
        ok := EncodeSubmessage(stream, sub, v.message);
    }
  }

  /** pb_encode_submessage: its size is counted first, then written, then the submessage, within that size. */
  method EncodeSubmessage(stream: OStream, ty: MessageType, m: Message) returns (ok: bool)
    requires Sane(stream.Now()) && WellFormed(ty) && Typed(ty, m)
    modifies stream
    ensures Encodes(old(stream.Now()), Prefix(EncMessage(ty, m)), ok, stream.Now())
    decreases ty, 5
  {
    hide EncMessage, VarintBytes;
    ghost var e := EncMessage(ty, m);
    ghost var s := stream.Now();
    var substream := new OStream.Sizing();
    ok := PbEncode(substream, ty, m);
    if !ok {
      return;
    }
    var size := substream.bytesWritten;
    ok := EncodeVarint(stream, size);
    if !ok {
      return;
    }
    if !stream.writing {
      stream.Count(size);
      return;
    }
    if stream.bytesWritten + size > stream.maxSize {
      return false;
    }
    substream.writing, substream.out, substream.maxSize, substream.bytesWritten := true, stream.out, size, 0;
    ok := PbEncode(substream, ty, m);
    stream.bytesWritten := stream.bytesWritten + substream.bytesWritten;
    stream.out := substream.out;
    if substream.bytesWritten != size {
      return false;
    }
    assert stream.out == s.out + (VarintBytes(size) + e.value);
  }

  /** encode_array: numbers are packed, their total size in front; other values carry a tag each. */
  method EncodeArray(stream: OStream, ty: MessageType, i: nat, items: seq<Value>) returns (ok: bool)
    requires Sane(stream.Now()) && WellFormed(ty) && i < |ty.fields| && TypedCell(ty, i, Many(items))
    modifies stream
    ensures Encodes(old(stream.Now()), EncCell(ty, i, Many(items)), ok, stream.Now())
    decreases ty, 2
  {
    if items == [] {
      return true;
    }
    if |items| > ty.fields[i].rule.most {
      return false;
    }
    if Packable(ty.fields[i].kind) {
      ok := EncodePacked(stream, ty, i, items);
    } else {
      ok := EncodeItems(stream, ty, i, items);
    }
  }

  method EncodePacked(stream: OStream, ty: MessageType, i: nat, items: seq<Value>) returns (ok: bool)
    requires Sane(stream.Now()) && WellFormed(ty) && i < |ty.fields| && Packable(ty.fields[i].kind)
    requires forall j :: 0 <= j < |items| ==> TypedValue(ty, i, items[j])
    modifies stream
    ensures Encodes(old(stream.Now()), Some(TagBytes(ty.fields[i].tag, WT_STRING) + LengthPrefixed(EncPacked(ty, i, items, |items|))), ok, stream.Now())
  {
    hide Encodes, VarintBytes, EncPacked;
    ghost var tag := Some(TagBytes(ty.fields[i].tag, WT_STRING));
    ghost var all := Some(EncPacked(ty, i, items, |items|));
    ghost var s := stream.Now();
    ok := EncodeVarint(stream, 8 * ty.fields[i].tag + WT_STRING);
    ghost var t := stream.Now();
    var size := PackedSize(ty, i, items);
    ghost var length := Some(VarintBytes(size));
    if !ok {
      StaysFailed(s, tag, t, Join(length, all));
      return;
    }
    SaneAfter(s, tag, true, t);
    ok := EncodeVarint(stream, size);
    ghost var u := stream.Now();
    if !ok {
      StaysFailed(t, length, u, all);
      ThenMore(s, tag, t, Join(length, all), false, u);
      return;
    }
    SaneAfter(t, length, true, u);
    if !stream.writing {
      Counted(u, all, size);
      stream.Count(size);
    } else {
      ok := EncodeNumbers(stream, ty, i, items);
    }
    ThenMore(t, length, u, all, ok, stream.Now());
    ThenMore(s, tag, t, Join(length, all), ok, stream.Now());
  }

  lemma Counted(s: State, e: Option<Slice>, size: nat)
    requires !s.writing && e.Some? && |e.value| == size
    ensures Encodes(s, e, true, s.(written := s.written + size))
  {
  }

  method EncodeNumbers(stream: OStream, ty: MessageType, i: nat, items: seq<Value>) returns (ok: bool)
    requires Sane(stream.Now()) && WellFormed(ty) && i < |ty.fields| && Packable(ty.fields[i].kind)
    requires forall j :: 0 <= j < |items| ==> TypedValue(ty, i, items[j])
    modifies stream
    ensures Encodes(old(stream.Now()), Some(EncPacked(ty, i, items, |items|)), ok, stream.Now())
  {
    hide Encodes, VarintBytes, ScalarBytes;
    ghost var t := stream.Now();
    Nothing(t);
    var k := 0;
    while k < |items|
      invariant k <= |items| && Sane(stream.Now())
      invariant Encodes(t, Some(EncPacked(ty, i, items, k)), true, stream.Now())
    {
      ghost var u := stream.Now();
      ok := EncodeNumber(stream, ty.fields[i].kind.scalar, items[k].n);
      ghost var one := Some(ScalarBytes(ty.fields[i].kind.scalar, items[k].n));
      if !ok {
        StaysFailedAt(t, ty, i, items, k, u, stream.Now());
        return;
      }
      ThenMore(t, Some(EncPacked(ty, i, items, k)), u, one, true, stream.Now());
      SaneAfter(u, one, true, stream.Now());
      k := k + 1;
    }
    ok := true;
  }

  lemma StaysFailedAt(t: State, ty: MessageType, i: nat, items: seq<Value>, k: nat, u: State, after: State)
    requires i < |ty.fields| && Packable(ty.fields[i].kind)
    requires k < |items| && forall j :: 0 <= j < |items| ==> TypedValue(ty, i, items[j])
    requires Encodes(t, Some(EncPacked(ty, i, items, k)), true, u)
    requires Encodes(u, Some(ScalarBytes(ty.fields[i].kind.scalar, items[k].n)), false, after)
    ensures Encodes(t, Some(EncPacked(ty, i, items, |items|)), false, after)
  {
    hide Encodes, ScalarBytes;
    ThenMore(t, Some(EncPacked(ty, i, items, k)), u, Some(ScalarBytes(ty.fields[i].kind.scalar, items[k].n)), false, after);
    PackedStaysFailed(t, ty, i, items, k + 1, |items|, after);
  }

  /** The size of a packed array, by arithmetic or by encoding it into a stream that only counts. */
  method PackedSize(ty: MessageType, i: nat, items: seq<Value>) returns (size: nat)
    requires i < |ty.fields| && Packable(ty.fields[i].kind)
    requires forall j :: 0 <= j < |items| ==> TypedValue(ty, i, items[j])
    ensures size == |EncPacked(ty, i, items, |items|)|
  {
    hide VarintBytes;
    var scalar := ty.fields[i].kind.scalar;
    if scalar.Fixed32? || scalar.Fixed64? {
      size := (if scalar.Fixed32? then 4 else 8) * |items|;
      FixedSize(ty, i, items, |items|);
    } else {
      var sizestream := new OStream.Sizing();
      var k := 0;
      while k < |items|
        invariant k <= |items| && !sizestream.writing && sizestream.bytesWritten == |EncPacked(ty, i, items, k)|
      {
        var ok := EncodeNumber(sizestream, scalar, items[k].n);
        k := k + 1;
      }
      size := sizestream.bytesWritten;
    }
  }

  lemma {:induction false} FixedSize(ty: MessageType, i: nat, items: seq<Value>, k: nat)
    requires i < |ty.fields| && Packable(ty.fields[i].kind)
    requires k <= |items| && forall j :: 0 <= j < |items| ==> TypedValue(ty, i, items[j])
    requires ty.fields[i].kind.scalar.Fixed32? || ty.fields[i].kind.scalar.Fixed64?
    ensures |EncPacked(ty, i, items, k)| == (if ty.fields[i].kind.scalar.Fixed32? then 4 else 8) * k
  {
    if k > 0 {
      FixedSize(ty, i, items, k - 1);
    }
  }

  method EncodeItems(stream: OStream, ty: MessageType, i: nat, items: seq<Value>) returns (ok: bool)
    requires Sane(stream.Now()) && WellFormed(ty) && i < |ty.fields|
    requires forall j :: 0 <= j < |items| ==> TypedValue(ty, i, items[j])
    modifies stream
    ensures Encodes(old(stream.Now()), EncItems(ty, i, items, |items|), ok, stream.Now())
    decreases ty, 1, 1
  {
    hide Encodes, EncValue, VarintBytes;
    ghost var s := stream.Now();
    Nothing(s);
    var k := 0;
    while k < |items|
      invariant k <= |items| && Sane(stream.Now())
      invariant Encodes(s, EncItems(ty, i, items, k), true, stream.Now())
    {
      ghost var t := stream.Now();
      ok := EncodeTagged(stream, ty, i, items[k]);
      ghost var one := Join(Some(FieldTag(ty.fields[i])), EncValue(ty, i, items[k]));
      ThenMore(s, EncItems(ty, i, items, k), t, one, ok, stream.Now());
      SaneAfter(t, one, ok, stream.Now());
      k := k + 1;
      if !ok {
        ItemsStayFailed(s, ty, i, items, k, |items|, stream.Now());
        return;
      }
    }
    ok := true;
  }

  lemma Nothing(s: State)
    requires Sane(s)
    ensures Encodes(s, Some([]), true, s)
  {
  }

  method EncodeTagged(stream: OStream, ty: MessageType, i: nat, v: Value) returns (ok: bool)
    requires Sane(stream.Now()) && WellFormed(ty) && i < |ty.fields| && TypedValue(ty, i, v)
    modifies stream
    ensures Encodes(old(stream.Now()), Join(Some(FieldTag(ty.fields[i])), EncValue(ty, i, v)), ok, stream.Now())
    decreases ty, 1, 0
  {
    hide Encodes, EncValue, VarintBytes, FieldTag;
    ghost var s := stream.Now();
    var f := ty.fields[i];
    ok := EncodeTagForField(stream, f);
    ghost var t := stream.Now();
    if !ok {
      StaysFailed(s, Some(FieldTag(f)), t, EncValue(ty, i, v));
      return;
    }
    SaneAfter(s, Some(FieldTag(f)), ok, t);
    ok := EncodeValue(stream, ty, i, v);
    ThenMore(s, Some(FieldTag(f)), t, EncValue(ty, i, v), ok, stream.Now());
  }

  /** encode_basic_field. */
  method EncodeField(stream: OStream, ty: MessageType, i: nat, c: Cell) returns (ok: bool)
    requires Sane(stream.Now()) && WellFormed(ty) && i < |ty.fields| && TypedCell(ty, i, c)
    modifies stream
    ensures Encodes(old(stream.Now()), EncCell(ty, i, c), ok, stream.Now())
    decreases ty, 3
  {
    match ty.fields[i].rule {
      case Required =>
        ok := EncodeTagged(stream, ty, i, c.value);
      case Optional =>
        if !c.has {
          return true;
        }
        ok := EncodeTagged(stream, ty, i, c.value);
      case Repeated(_) =>
        assert c == Many(c.items);
        ok := EncodeArray(stream, ty, i, c.items);
    }
  }

  /** pb_encode: the fields of the struct, one after the other. */
  method PbEncode(stream: OStream, ty: MessageType, m: Message) returns (ok: bool)
    requires Sane(stream.Now()) && WellFormed(ty) && Typed(ty, m)
    modifies stream
    ensures Encodes(old(stream.Now()), EncMessage(ty, m), ok, stream.Now())
    decreases ty, 4
  {
    hide Encodes, EncCell;
    ghost var s := stream.Now();
    Nothing(s);
    var iter := new FieldIter(ty);
    if TagAt(ty, iter.pos) == 0 {
      return true;
    }
    var more := true;
    while more
      invariant iter.Valid() && iter.ty == ty && fresh(iter) && Sane(stream.Now())
      invariant Encodes(s, EncFields(ty, m, if more then iter.pos else |ty.fields|), true, stream.Now())
      decreases more, |ty.fields| - iter.pos
    {
      var i := iter.pos;
      ghost var t := stream.Now();
      ok := EncodeField(stream, ty, i, m.cells[i]);
      ThenMore(s, EncFields(ty, m, i), t, EncCell(ty, i, m.cells[i]), ok, stream.Now());
      SaneAfter(t, EncCell(ty, i, m.cells[i]), ok, stream.Now());
      if !ok {
        FieldsStayFailed(s, ty, m, i + 1, |ty.fields|, stream.Now());
        return;
      }
      more := iter.Next();
    }
    ok := true;
  }

  /** pb_get_encoded_size: what the sizing pass counts is what a writing pass writes. */
  method GetEncodedSize(ty: MessageType, m: Message) returns (size: Option<nat>)
    requires WellFormed(ty) && Typed(ty, m)
    ensures size == if EncMessage(ty, m).Some? then Some(|EncMessage(ty, m).value|) else None
  {
    hide EncMessage;
    var stream := new OStream.Sizing();
    var ok := PbEncode(stream, ty, m);
    size := if ok then Some(stream.bytesWritten) else None;
  }
}
