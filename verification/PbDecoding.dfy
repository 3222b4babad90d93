/** nanopb's decoder (pb_decode.c): what a byte string means for a struct, and the table-driven loop that fills it in. */
module PbDecoding {
  import opened Bytes
  import opened InternalKeys
  import opened Coding
  import opened PbScalars
  import opened PbFields
  import opened PbEncoding

  // ------------------------------------------------------------------ what the bytes mean

  /** pb_make_string_substream: a length and as many bytes. */
  function Substream(s: Slice): (r: Option<(Slice, Slice)>)
    ensures r.Some? ==> |r.value.0| < |s| && |r.value.1| < |s|
  {
    match Varint32(s)
    case None => None
    case Some((n, rest)) => if n <= |rest| then Some((rest[..n], rest[n..])) else None
  }

  /** pb_skip_field. */
  function Skip(wireType: nat, s: Slice): (r: Option<Slice>)
    ensures r.Some? ==> |r.value| <= |s|
  {
    if wireType == WT_VARINT then
      (if End(s) < |s| then Some(s[End(s) + 1..]) else None)
    else if wireType == WT_64BIT then
      (if 8 <= |s| then Some(s[8..]) else None)
    else if wireType == WT_STRING then
      (match Substream(s) case None => None case Some((_, rest)) => Some(rest))
    else if wireType == WT_32BIT then
      (if 4 <= |s| then Some(s[4..]) else None)
    else None
  }

  /** What a C string's buffer holds up to its terminator. */
  function UpToNul(s: Slice): (r: Slice)
    ensures |r| <= |s| && 0 !in r
  {
    if s == [] || s[0] == 0 then [] else [s[0]] + UpToNul(s[1..])
  }

  /** The position of the field of that tag; the number of fields if there is none. */
  function FieldWith(ty: MessageType, tag: nat, from: nat): (i: nat)
    requires from <= |ty.fields|
    ensures from <= i <= |ty.fields|
    ensures i < |ty.fields| ==> ty.fields[i].tag == tag
    ensures forall j :: from <= j < i ==> ty.fields[j].tag != tag
    decreases |ty.fields| - from
  {
    if from == |ty.fields| || ty.fields[from].tag == tag then from else FieldWith(ty, tag, from + 1)
  }

  /** A struct being filled in, and the positions of the fields that came. */
  datatype Dest = Dest(message: Message, seen: set<nat>)

  datatype Progress = Error | Done | Next(dest: Dest, rest: Slice)

  /** pb_decode_noinit into a given struct. Wire types are looked at only where arrays may be packed. */
  function DecMessage(ty: MessageType, m: Message, s: Slice): (r: Option<Message>)
    requires WellFormed(ty) && Typed(ty, m)
    ensures r.Some? ==> Typed(ty, r.value)
    decreases |s|, 4
  {
    match DecFields(ty, Dest(m, {}), s)
    case None => None
    case Some(d) => if AllSeen(ty, d.seen) then Some(d.message) else None
  }

  /** Field by field, to the end of the input or to a zero. */
  function DecFields(ty: MessageType, d: Dest, s: Slice): (r: Option<Dest>)
    requires WellFormed(ty) && Typed(ty, d.message)
    ensures r.Some? ==> Typed(ty, r.value.message)
    decreases |s|, 3
  {
    if s == [] then Some(d) else
      match DecOne(ty, d, s)
      case Error => None
      case Done => Some(d)
      case Next(d', rest) => DecFields(ty, d', rest)
  }

  function DecOne(ty: MessageType, d: Dest, s: Slice): (r: Progress)
    requires WellFormed(ty) && Typed(ty, d.message)
    ensures r.Next? ==> Typed(ty, r.dest.message) && |r.rest| < |s|
    decreases |s|, 2
  {
    match Varint32(s)
    case None => Error
    case Some((key, rest)) =>
      if key == 0 then Done else
        var i := FieldWith(ty, key / 8, 0);
        if i < |ty.fields| then
          match DecField(ty, i, d.message.cells[i], key % 8, rest)
          case None => Error
          case Some((c, more)) => Next(Dest(Put(ty, d.message, i, c), d.seen + {i}), more)
        else if ty.fields == [] && key / 8 == 0 then Error
        else
          match Skip(key % 8, rest)
          case None => Error
          case Some(more) => Next(d, more)
  }

  function Put(ty: MessageType, m: Message, i: nat, c: Cell): (r: Message)
    requires Typed(ty, m) && i < |ty.fields| && TypedCell(ty, i, c)
    ensures Typed(ty, r) && r.cells == m.cells[i := c]
  {
    Message(m.cells[i := c])
  }

  /** decode_static_field. */
  function DecField(ty: MessageType, i: nat, c: Cell, wireType: nat, s: Slice): (r: Option<(Cell, Slice)>)
    requires WellFormed(ty) && i < |ty.fields| && TypedCell(ty, i, c)
    ensures r.Some? ==> TypedCell(ty, i, r.value.0) && |r.value.1| < |s|
    decreases |s|, 1
  {
    match ty.fields[i].rule
    case Required => (match DecValue(ty, i, c.value, s) case None => None case Some((v, rest)) => Some((One(true, v), rest)))
    case Optional => (match DecValue(ty, i, c.value, s) case None => None case Some((v, rest)) => Some((One(true, v), rest)))
    case Repeated(most) =>
      if wireType == WT_STRING && Packable(ty.fields[i].kind) then
        match Substream(s)
        case None => None
        case Some((body, rest)) =>
          (match DecPacked(ty, i, c.items, body) case None => None case Some(items) => Some((Many(items), rest)))
      else if |c.items| >= most then None
      else
        DefaultIsTyped(ty, i);
        match DecValue(ty, i, DefaultValue(ty, i), s)
        case None => None
        case Some((v, rest)) => Some((Many(c.items + [v]), rest))
  }

  function DecPacked(ty: MessageType, i: nat, items: seq<Value>, s: Slice): (r: Option<seq<Value>>)
    requires WellFormed(ty) && i < |ty.fields| && ty.fields[i].rule.Repeated? && Packable(ty.fields[i].kind)
    requires forall k :: 0 <= k < |items| ==> TypedValue(ty, i, items[k])
    ensures r.Some? ==> forall k :: 0 <= k < |r.value| ==> TypedValue(ty, i, r.value[k])
    decreases |s|
  {
    if s == [] then Some(items)
    else if |items| >= ty.fields[i].rule.most then None
    else
      assert FieldOk(ty, i);
      match ReadScalar(ty.fields[i].kind.scalar, s)
      case None => None
      case Some((n, rest)) =>
        ReadsInRange(ty.fields[i].kind.scalar, s);
        DecPacked(ty, i, items + [Num(n)], rest)
  }

  /** PB_DECODERS. A submessage is merged into what is there. */
  function DecValue(ty: MessageType, i: nat, v: Value, s: Slice): (r: Option<(Value, Slice)>)
    requires WellFormed(ty) && i < |ty.fields| && TypedValue(ty, i, v)
    ensures r.Some? ==> TypedValue(ty, i, r.value.0) && |r.value.1| < |s|
    decreases |s|, 0
  {
    assert FieldOk(ty, i);
    match ty.fields[i].kind
    case Number(scalar) =>
      ReadsInRange(scalar, s);
      (match ReadScalar(scalar, s) case None => None case Some((n, rest)) => Some((Num(n), rest)))
    case Bytes(size) =>
      (match Varint32(s)
       case None => None
       case Some((n, rest)) => if n > size || n > |rest| then None else Some((Data(rest[..n]), rest[n..])))
    case Text(size) =>
      (match Varint32(s)
       case None => None
       case Some((n, rest)) => if n + 1 > size || n > |rest| then None else Some((Data(UpToNul(rest[..n])), rest[n..])))
    case FixedBytes(size) =>
      (match Varint32(s)
       case None => None
       case Some((n, rest)) =>
         if n == 0 then Some((Data(Zeros(size)), rest))
         else if n != size || n > |rest| then None
         else Some((Data(rest[..n]), rest[n..])))
    case Submessage(sub) =>
      (match Substream(s)
       case None => None
       case Some((body, rest)) =>
         (match DecMessage(sub, v.message, body) case None => None case Some(m) => Some((Struct(m), rest))))
  }

  /** A number that is accepted fits its field. */
  lemma ReadsInRange(scalar: Scalar, s: Slice)
    requires WidthOk(scalar)
    ensures ReadScalar(scalar, s).Some? ==> InRange(scalar, ReadScalar(scalar, s).value.0)
  {
    FixedPowers();
    hide Varint, Pow256, FixedValue, UnZigZag;
    if scalar.Fixed32? && |s| >= 4 {
      FixedBelow(s[..4]);
    } else if scalar.Fixed64? && |s| >= 8 {
      FixedBelow(s[..8]);
    } else if scalar.Int? || scalar.SInt? {
      CastInRange(scalar.width);
    }
  }

  lemma CastInRange(width: nat)
    requires width == 1 || width == 2 || width == 4 || width == 8
    ensures forall n :: ToSigned(n, width) == n ==> -(Limit(width) / 2) <= n < Limit(width) / 2
  {
  }

  lemma {:induction false} FixedBelow(s: Slice)
    ensures FixedValue(s) < Pow256(|s|)
  {
    if s != [] {
      FixedBelow(s[1..]);
    }
  }

  // ------------------------------------------------------------------ input streams

  /** pb_istream_t: the bytes that are left. */
  class IStream {
    var left: Slice

    /** pb_istream_from_buffer. */
    constructor (buf: Slice)
      ensures left == buf
    {
      left := buf;
    }

    /** pb_read. */
    method Read(count: nat) returns (buf: Option<Slice>)
      modifies this
      ensures Took(if count <= |old(left)| then Some((old(left)[..count], old(left)[count..])) else None, buf, left)
    {
      if |left| < count {
        return None;
      }
      buf := Some(left[..count]);
      left := left[count..];
    }
  }

  /** What a decoder returned and left is what was to be read there. */
  ghost predicate Took<T>(spec: Option<(T, Slice)>, r: Option<T>, left: Slice)
  {
    match spec
    case None => r == None
    case Some((v, rest)) => r == Some(v) && left == rest
  }

  method DecodeVarint32(stream: IStream) returns (r: Option<nat>)
    modifies stream
    ensures Took(Varint32(old(stream.left)), r, stream.left)
  {
    var got := PbDecodeVarint32(stream.left);
    if got.None? {
      return None;
    }
    stream.left := got.value.1;
    r := Some(got.value.0);
  }

  method DecodeVarint(stream: IStream) returns (r: Option<nat>)
    modifies stream
    ensures Took(Varint(old(stream.left), 10, TWO_64), r, stream.left)
  {
    var got := PbDecodeVarint(stream.left);
    if got.None? {
      return None;
    }
    stream.left := got.value.1;
    r := Some(got.value.0);
  }

  /** A length, and a stream of that many bytes; the outer stream is moved behind them at once, not when it is closed. */
  method MakeStringSubstream(stream: IStream) returns (ok: bool, substream: IStream)
    modifies stream
    ensures fresh(substream)
    ensures Took(Substream(old(stream.left)), if ok then Some(substream.left) else None, stream.left)
  {
    substream := new IStream([]);
    var size := DecodeVarint32(stream);
    if size.None? || |stream.left| < size.value {
      return false, substream;
    }
    substream.left := stream.left[..size.value];
    stream.left := stream.left[size.value..];
    ok := true;
  }

  /** pb_skip_varint. */
  method SkipVarint(stream: IStream) returns (ok: bool)
    modifies stream
    ensures Took(match Skip(WT_VARINT, old(stream.left)) case None => None case Some(rest) => Some((true, rest)), if ok then Some(true) else None, stream.left)
  {
    ghost var s := stream.left;
    ghost var p := 0;
    while true
      invariant p <= |s| && stream.left == s[p..] && forall k :: 0 <= k < p ==> s[k] >= 128
      decreases |s| - p
    {
      var byte := stream.Read(1);
      if byte.None? {
        EndIs(s, |s|);
        return false;
      }
      assert byte.value[0] == s[p];
      p := p + 1;
      if byte.value[0] < 128 {
        EndIs(s, p - 1);
        return true;
      }
    }
  }

  /** pb_skip_field. */
  method SkipField(stream: IStream, wireType: nat) returns (ok: bool)
    modifies stream
    ensures ok <==> Skip(wireType, old(stream.left)).Some?
    ensures ok ==> stream.left == Skip(wireType, old(stream.left)).value
  {
    ghost var s := stream.left;
    if wireType == WT_VARINT {
      ok := SkipVarint(stream);
    } else if wireType == WT_64BIT {
      var skipped := stream.Read(8);
      ok := skipped.Some?;
    } else if wireType == WT_STRING {
      var length := DecodeVarint32(stream);
      if length.None? {
        return false;
      }
      var skipped := stream.Read(length.value);
      ok := skipped.Some?;
    } else if wireType == WT_32BIT {
      var skipped := stream.Read(4);
      ok := skipped.Some?;
    } else {
      ok := false;
    }
  }

  // ------------------------------------------------------------------ the decoder

  /** pb_dec_varint, pb_dec_uvarint, pb_dec_svarint, pb_dec_fixed32 and pb_dec_fixed64. */
  method DecodeNumber(stream: IStream, scalar: Scalar) returns (r: Option<int>)
    requires WidthOk(scalar)
    modifies stream
    ensures Took(ReadScalar(scalar, old(stream.left)), r, stream.left)
  {
    hide Varint, FixedValue;
    match scalar {
      case Int(width) =>
        var value := DecodeVarint(stream);
        if value.None? {
          return None;
        }
        var svalue := if width == 8 then Signed(value.value) else ToSigned(value.value, 4);
        var clamped := ToSigned(svalue, width);
        return if clamped != svalue then None else Some(svalue);
      case UInt(width) =>
        var value := DecodeVarint(stream);
        if value.None? {
          return None;
        }
        var clamped := value.value % Limit(width);
        return if clamped != value.value then None else Some(value.value);
      case SInt(width) =>
        var value := DecodeVarint(stream);
        if value.None? {
          return None;
        }
        var svalue := UnZigZag(value.value % TWO_64);
        var clamped := ToSigned(svalue, width);
        return if clamped != svalue then None else Some(svalue);
      case Fixed32 =>
        var bytes := stream.Read(4);
        return if bytes.None? then None else Some(FixedValue(bytes.value));
      case Fixed64 =>
        var bytes := stream.Read(8);
        return if bytes.None? then None else Some(FixedValue(bytes.value));
    }
  }

  /** PB_DECODERS, with pb_dec_bytes, pb_dec_string, pb_dec_fixed_length_bytes and pb_dec_submessage. */
  method DecodeValue(stream: IStream, ty: MessageType, i: nat, v: Value) returns (r: Option<Value>)
    requires WellFormed(ty) && i < |ty.fields| && TypedValue(ty, i, v)
    requires ty.fields[i].rule.Repeated? ==> v == DefaultValue(ty, i)
    modifies stream
    ensures Took(DecValue(ty, i, v, old(stream.left)), r, stream.left)
    decreases |stream.left|, 0
  {
    hide Varint32, ReadScalar, DecMessage;
    assert FieldOk(ty, i);
    match ty.fields[i].kind {
      case Number(scalar) =>
        var n := DecodeNumber(stream, scalar);
        return if n.None? then None else Some(Num(n.value));
      case Bytes(size) =>
        var n := DecodeVarint32(stream);
        if n.None? || n.value > size {
          return None;
        }
        var bytes := stream.Read(n.value);
        return if bytes.None? then None else Some(Data(bytes.value));
      case Text(size) =>
        var n := DecodeVarint32(stream);
        if n.None? || n.value + 1 > size {
          return None;
        }
        var bytes := stream.Read(n.value);
        return if bytes.None? then None else Some(Data(UpToNul(bytes.value)));
      case FixedBytes(size) =>
        var n := DecodeVarint32(stream);
        if n.None? {
          return None;
        }
        if n.value == 0 {
          return Some(Data(Zeros(size)));
        }
        if n.value != size {
          return None;
        }
        var bytes := stream.Read(n.value);
        return if bytes.None? then None else Some(Data(bytes.value));
      case Submessage(sub) =>
        var ok, substream := MakeStringSubstream(stream);
        if !ok {
          return None;
        }
        var m;
        if ty.fields[i].rule.Repeated? {
          m := PbDecode(substream, sub);
        } else {
          m := PbDecodeNoinit(substream, sub, v.message);
        }
        return if m.None? then None else Some(Struct(m.value));
    }
  }

  /** decode_static_field. */
  method DecodeField(stream: IStream, ty: MessageType, i: nat, c: Cell, wireType: nat) returns (r: Option<Cell>)
    requires WellFormed(ty) && i < |ty.fields| && TypedCell(ty, i, c)
    modifies stream
    ensures Took(DecField(ty, i, c, wireType, old(stream.left)), r, stream.left)
    decreases |stream.left|, 1
  {
    hide DecValue, DecPacked, Substream;
    DefaultIsTyped(ty, i);
    match ty.fields[i].rule {
      case Required =>
        var v := DecodeValue(stream, ty, i, c.value);
        return if v.None? then None else Some(One(true, v.value));
      case Optional =>
        var v := DecodeValue(stream, ty, i, c.value);
        return if v.None? then None else Some(One(true, v.value));
      case Repeated(most) =>
        if wireType == WT_STRING && Packable(ty.fields[i].kind) {
          var ok, substream := MakeStringSubstream(stream);
          if !ok {
            return None;
          }
          var items := DecodePacked(substream, ty, i, c.items);
          return if items.None? then None else Some(Many(items.value));
        }
        if |c.items| >= most {
          return None;
        }
        var v := DecodeValue(stream, ty, i, DefaultValue(ty, i));
        return if v.None? then None else Some(Many(c.items + [v.value]));
    }
  }

  method DecodePacked(substream: IStream, ty: MessageType, i: nat, given: seq<Value>) returns (r: Option<seq<Value>>)
    requires WellFormed(ty) && i < |ty.fields| && ty.fields[i].rule.Repeated? && Packable(ty.fields[i].kind)
    requires forall k :: 0 <= k < |given| ==> TypedValue(ty, i, given[k])
    modifies substream
    ensures r == DecPacked(ty, i, given, old(substream.left))
  {
    hide ReadScalar;
    assert FieldOk(ty, i);
    var scalar := ty.fields[i].kind.scalar;
    var items, status := given, true;
    while status && substream.left != [] && |items| < ty.fields[i].rule.most
      invariant forall k :: 0 <= k < |items| ==> TypedValue(ty, i, items[k])
      invariant DecPacked(ty, i, given, old(substream.left)) == if status then DecPacked(ty, i, items, substream.left) else None
      decreases status, |substream.left|
    {
      ReadsInRange(scalar, substream.left);
      var n := DecodeNumber(substream, scalar);
      if n.None? {
        status := false;
      } else {
        items := items + [Num(n.value)];
      }
    }
    if substream.left != [] || !status {
      return None;
    }
    r := Some(items);
  }

  /** pb_decode_tag; a zero, in the place of a tag, ends the message. */
  method DecodeTag(stream: IStream) returns (ok: bool, wireType: nat, tag: nat, eof: bool)
    requires stream.left != []
    modifies stream
    ensures match Varint32(old(stream.left))
      case None => !ok && !eof
      case Some((key, rest)) => stream.left == rest && if key == 0 then !ok && eof else ok && tag == key / 8 && wireType == key % 8
  {
    ok, wireType, tag, eof := false, 0, 0, false;
    var key := DecodeVarint32(stream);
    if key.None? {
      return;
    }
    if key.value == 0 {
      eof := true;
      return;
    }
    ok, wireType, tag := true, key.value % 8, key.value / 8;
  }

  lemma FieldWithIs(ty: MessageType, tag: nat, i: nat)
    requires TagsOk(ty)
    ensures i < |ty.fields| && ty.fields[i].tag == tag ==> FieldWith(ty, tag, 0) == i
    ensures Knows(ty, tag) <==> FieldWith(ty, tag, 0) < |ty.fields|
  {
  }

  /** The step the loop of pb_decode_noinit takes on a field that it knows. */
  lemma OneKnown(ty: MessageType, d: Dest, s: Slice, i: nat)
    requires WellFormed(ty) && Typed(ty, d.message) && s != [] && Varint32(s).Some? && i < |ty.fields|
    requires Varint32(s).value.0 != 0 && FieldWith(ty, Varint32(s).value.0 / 8, 0) == i
    ensures var (key, rest) := Varint32(s).value;
      var r := DecField(ty, i, d.message.cells[i], key % 8, rest);
      DecFields(ty, d, s) == if r.None? then None
        else DecFields(ty, Dest(Put(ty, d.message, i, r.value.0), d.seen + {i}), r.value.1)
  {
    hide Varint32, DecField;
  }

  lemma OneUnknown(ty: MessageType, d: Dest, s: Slice)
    requires WellFormed(ty) && Typed(ty, d.message) && s != [] && Varint32(s).Some? && Varint32(s).value.0 != 0
    requires FieldWith(ty, Varint32(s).value.0 / 8, 0) == |ty.fields| && !(ty.fields == [] && Varint32(s).value.0 / 8 == 0)
    ensures var (key, rest) := Varint32(s).value;
      DecFields(ty, d, s) == if Skip(key % 8, rest).None? then None else DecFields(ty, d, Skip(key % 8, rest).value)
  {
    hide Varint32, DecField, Skip;
  }

  lemma OneOther(ty: MessageType, d: Dest, s: Slice)
    requires WellFormed(ty) && Typed(ty, d.message) && s != []
    ensures Varint32(s) == None ==> DecFields(ty, d, s) == None
    ensures Varint32(s).Some? && Varint32(s).value.0 == 0 ==> DecFields(ty, d, s) == Some(d)
    ensures Varint32(s).Some? && Varint32(s).value.0 != 0 && ty.fields == [] && Varint32(s).value.0 / 8 == 0 ==> DecFields(ty, d, s) == None
  {
    hide Varint32, DecField, Skip;
  }

  /** The flag of the field the iterator stands at, if it has one. */
  method SetSeen(iter: FieldIter, fieldsSeen: array<nat>, ghost seen: set<nat>, ghost flags: seq<bool>) returns (ghost after: seq<bool>)
    requires iter.Valid() && iter.pos < |iter.ty.fields| && Holds(fieldsSeen, flags) && Flagged(iter.ty, seen, flags)
    modifies fieldsSeen
    ensures Holds(fieldsSeen, after) && Flagged(iter.ty, seen + {iter.pos}, after)
  {
    hide Flagged, Word;
    var i := iter.pos;
    after := flags;
    FlaggedOneMore(iter.ty, seen, flags, i);
    if iter.ty.fields[i].rule.Required? && iter.requiredFieldIndex < MAX_REQUIRED_FIELDS {
      Mark(fieldsSeen, iter.requiredFieldIndex, flags);
      after := flags[iter.requiredFieldIndex := true];
    }
  }

  /**
   * pb_decode_noinit. Extensions are not modelled: the search for one finds none and leaves the iterator as it was. In a
   * type without fields the iterator stands at the terminator, which reads as a number of no size; that is refused.
   */
  method PbDecodeNoinit(stream: IStream, ty: MessageType, dest: Message) returns (r: Option<Message>)
    requires WellFormed(ty) && Typed(ty, dest)
    modifies stream
    ensures r == DecMessage(ty, dest, old(stream.left))
    decreases |stream.left|, 4
  {
    hide DecFields, DecOne, DecField, Varint32, Skip, Flagged, Holds, AllSeen, Word, FieldWith, FieldOk, TypedValue;
    var m := dest;
    var fieldsSeen := new nat[2][0, 0];
    ghost var seen: set<nat> := {};
    ghost var flags := seq(MAX_REQUIRED_FIELDS, _ => false);
    NoneFlagged(ty, fieldsSeen, flags);
    var iter := new FieldIter(ty);
    var eof := false;
    while !eof && stream.left != []
      invariant Typed(ty, m) && iter.Valid() && iter.ty == ty && Holds(fieldsSeen, flags) && Flagged(ty, seen, flags)
      invariant fresh(iter) && fresh(fieldsSeen)
      invariant |stream.left| <= |old(stream.left)|
      invariant DecFields(ty, Dest(dest, {}), old(stream.left))
             == if eof then Some(Dest(m, seen)) else DecFields(ty, Dest(m, seen), stream.left)
      decreases !eof, |stream.left|
    {
      ghost var d, s := Dest(m, seen), stream.left;
      OneOther(ty, d, s);
      var ok, wireType, tag, done := DecodeTag(stream);
      if !ok {
        if !done {
          return None;
        }
        eof := true;
      } else {
        var found := iter.Find(tag);
        FieldWithIs(ty, tag, iter.pos);
        if !found {
          FieldWithEnd(ty, tag);
          OneUnknown(ty, d, s);
          ok := SkipField(stream, wireType);
          if !ok {
            return None;
          }
          SkipShrinks(wireType, Varint32(s).value.1);
        } else {
          if iter.pos == |ty.fields| {
            return None;
          }
          var i := iter.pos;
          OneKnown(ty, d, s, i);
          flags := SetSeen(iter, fieldsSeen, seen, flags);
          seen := seen + {i};
          var c := DecodeField(stream, ty, i, m.cells[i], wireType);
          if c.None? {
            return None;
          }
          m := Put(ty, m, i, c.value);
        }
      }
    }
    if !eof {
      NoFields(ty, Dest(m, seen));
    }
    var complete := RequiredSeen(iter, fieldsSeen, seen, flags);
    r := if complete then Some(m) else None;
  }

  lemma NoneFlagged(ty: MessageType, words: array<nat>, flags: seq<bool>)
    requires words.Length == 2 && words[0] == 0 && words[1] == 0 && |flags| == MAX_REQUIRED_FIELDS && forall r :: 0 <= r < |flags| ==> !flags[r]
    ensures Holds(words, flags) && Flagged(ty, {}, flags)
  {
    NoneSet(flags[..32]);
    NoneSet(flags[32..]);
    forall i | 0 <= i < |ty.fields| && ty.fields[i].rule.Required? && RequiredBefore(ty, i) < MAX_REQUIRED_FIELDS
      ensures !flags[RequiredBefore(ty, i)]
    {
    }
  }

  lemma {:induction false} NoneSet(flags: seq<bool>)
    requires forall r :: 0 <= r < |flags| ==> !flags[r]
    ensures Word(flags) == 0
  {
    if flags != [] {
      NoneSet(flags[1..]);
    }
  }

  lemma FieldWithEnd(ty: MessageType, tag: nat)
    requires TagsOk(ty) && !Knows(ty, tag)
    ensures FieldWith(ty, tag, 0) == |ty.fields|
  {
    FieldWithIs(ty, tag, 0);
  }

  lemma SkipShrinks(wireType: nat, s: Slice)
    ensures Skip(wireType, s).Some? ==> |Skip(wireType, s).value| <= |s|
  {
  }

  lemma NoFields(ty: MessageType, d: Dest)
    requires WellFormed(ty) && Typed(ty, d.message)
    ensures DecFields(ty, d, []) == Some(d)
  {
  }

  /** pb_decode: into a struct set to its defaults. */
  method PbDecode(stream: IStream, ty: MessageType) returns (r: Option<Message>)
    requires WellFormed(ty)
    modifies stream
    ensures Typed(ty, Defaults(ty))
    ensures r == DecMessage(ty, Defaults(ty), old(stream.left))
    decreases |stream.left|, 5
  {
    DefaultsAreTyped(ty);
    r := PbDecodeNoinit(stream, ty, Defaults(ty));
  }
}
