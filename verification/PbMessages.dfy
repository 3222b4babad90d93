/** What nanopb's encoder and decoder do to each other: round trips, unknown fields, and what a decoded message is like. */
module PbMessages {
  import opened Bytes
  import opened InternalKeys
  import opened Coding
  import opened PbScalars
  import opened PbFields
  import opened PbEncoding
  import opened PbDecoding

  // ------------------------------------------------------------------ what survives a round trip

  /** The struct with every absent optional field at its default; nothing else of it is lost. */
  function Canonical(ty: MessageType, m: Message): (r: Message)
    requires Typed(ty, m)
    ensures |r.cells| == |ty.fields| && forall i :: 0 <= i < |ty.fields| ==> r.cells[i] == CanonicalCell(ty, i, m.cells[i])
    decreases ty
  {
    Message(seq(|ty.fields|, i requires 0 <= i < |ty.fields| => CanonicalCell(ty, i, m.cells[i])))
  }

  function CanonicalCell(ty: MessageType, i: nat, c: Cell): Cell
    requires i < |ty.fields| && TypedCell(ty, i, c)
    decreases ty, 2
  {
    match ty.fields[i].rule
    case Required => One(true, CanonicalValue(ty, i, c.value))
    case Optional => if c.has then One(true, CanonicalValue(ty, i, c.value)) else DefaultCell(ty, i)
    case Repeated(_) => Many(CanonicalItems(ty, i, c.items))
  }

  function CanonicalItems(ty: MessageType, i: nat, items: seq<Value>): (r: seq<Value>)
    requires i < |ty.fields| && forall k :: 0 <= k < |items| ==> TypedValue(ty, i, items[k])
    ensures |r| == |items| && forall k :: 0 <= k < |items| ==> r[k] == CanonicalValue(ty, i, items[k])
    decreases ty, 1
  {
    seq(|items|, k requires 0 <= k < |items| => CanonicalValue(ty, i, items[k]))
  }

  function CanonicalValue(ty: MessageType, i: nat, v: Value): Value
    requires i < |ty.fields| && TypedValue(ty, i, v)
    decreases ty, 0
  {
    match ty.fields[i].kind
    case Submessage(sub) => Struct(Canonical(sub, v.message))
    case _ => v
  }

  /** Every text that is there leaves room for its terminator. */
  predicate Terminated(ty: MessageType, m: Message)
    requires Typed(ty, m)
    decreases ty
  {
    forall i :: 0 <= i < |ty.fields| ==> TerminatedCell(ty, i, m.cells[i])
  }

  predicate TerminatedCell(ty: MessageType, i: nat, c: Cell)
    requires i < |ty.fields| && TypedCell(ty, i, c)
    decreases ty, 1
  {
    match ty.fields[i].rule
    case Required => TerminatedValue(ty, i, c.value)
    case Optional => c.has ==> TerminatedValue(ty, i, c.value)
    case Repeated(_) => forall k :: 0 <= k < |c.items| ==> TerminatedValue(ty, i, c.items[k])
  }

  predicate TerminatedValue(ty: MessageType, i: nat, v: Value)
    requires i < |ty.fields| && TypedValue(ty, i, v)
    decreases ty, 0
  {
    match ty.fields[i].kind
    case Text(size) => |v.bytes| < size
    case Submessage(sub) => Terminated(sub, v.message)
    case _ => true
  }

  /** Whether any bytes of the field are written. */
  predicate Written(ty: MessageType, i: nat, c: Cell)
    requires i < |ty.fields| && TypedCell(ty, i, c)
  {
    match ty.fields[i].rule
    case Required => true
    case Optional => c.has
    case Repeated(_) => c.items != []
  }

  // ------------------------------------------------------------------ one field

  lemma LengthIsRead(b: Slice, rest: Slice)
    requires |b| < TWO_32
    ensures Varint32(LengthPrefixed(b) + rest) == Some((|b|, b + rest))
    ensures Substream(LengthPrefixed(b) + rest) == Some((b, rest))
  {
    hide Varint32, VarintBytes;
    assert LengthPrefixed(b) + rest == VarintBytes(|b|) + (b + rest);
    Varint32RoundTrip(|b|, b + rest);
    assert (b + rest)[..|b|] == b && (b + rest)[|b|..] == rest;
  }

  /** Behind the tag of one of its fields, the loop does what that field's decoder says. */
  lemma TagIsRead(ty: MessageType, d: Dest, i: nat, wireType: nat, s: Slice)
    requires WellFormed(ty) && Typed(ty, d.message) && i < |ty.fields| && wireType < 8
    ensures var r := DecField(ty, i, d.message.cells[i], wireType, s);
      DecFields(ty, d, TagBytes(ty.fields[i].tag, wireType) + s) == if r.None? then None
        else DecFields(ty, Dest(Put(ty, d.message, i, r.value.0), d.seen + {i}), r.value.1)
  {
    hide Varint32, VarintBytes, DecField, DecFields, FieldWith;
    var key := 8 * ty.fields[i].tag + wireType;
    Varint32RoundTrip(key, s);
    FieldWithIs(ty, ty.fields[i].tag, i);
    assert key / 8 == ty.fields[i].tag && key % 8 == wireType;
    OneKnown(ty, d, TagBytes(ty.fields[i].tag, wireType) + s, i);
  }

  lemma {:induction false} UpToNulKeeps(s: Slice)
    requires 0 !in s
    ensures UpToNul(s) == s
  {
    if s != [] {
      UpToNulKeeps(s[1..]);
    }
  }

  lemma BytesAreRead(b: Slice, rest: Slice)
    requires |b| < TWO_32
    ensures Varint32(LengthPrefixed(b) + rest) == Some((|b|, b + rest))
    ensures (b + rest)[..|b|] == b && (b + rest)[|b|..] == rest
  {
    LengthIsRead(b, rest);
  }

  /** A value in a place that still has its default. */
  lemma {:induction false} ValueRoundTrip(ty: MessageType, i: nat, v: Value, rest: Slice)
    requires WellFormed(ty) && i < |ty.fields| && TypedValue(ty, i, v) && TypedValue(ty, i, DefaultValue(ty, i))
    requires EncValue(ty, i, v).Some? && |EncValue(ty, i, v).value| < TWO_32
    ensures DecValue(ty, i, DefaultValue(ty, i), EncValue(ty, i, v).value + rest)
         == if TerminatedValue(ty, i, v) then Some((CanonicalValue(ty, i, v), rest)) else None
    decreases ty, 0
  {
    hide Varint32, VarintBytes, ScalarBytes, ReadScalar, DecMessage, EncMessage, Canonical, Terminated, Defaults, Substream, UpToNul;
    assert FieldOk(ty, i);
    match ty.fields[i].kind {
      case Number(scalar) =>
        ScalarRoundTrip(scalar, v.n, rest);
      case Submessage(sub) =>
        var body := EncMessage(sub, v.message).value;
        MessageRoundTrip(sub, v.message);
        LengthIsRead(body, rest);
      case Bytes(_) =>
        BytesAreRead(v.bytes, rest);
      case Text(_) =>
        BytesAreRead(v.bytes, rest);
        UpToNulKeeps(v.bytes);
      case FixedBytes(_) =>
        BytesAreRead(v.bytes, rest);
        if v.bytes == [] {
          assert v.bytes == Zeros(0);
        }
    }
  }

  /** A field of one value: its tag, and the value. */
  lemma {:induction false} TaggedRoundTrip(ty: MessageType, d: Dest, i: nat, v: Value, rest: Slice)
    requires WellFormed(ty) && Typed(ty, d.message) && i < |ty.fields| && !ty.fields[i].rule.Repeated?
    requires TypedValue(ty, i, v) && d.message.cells[i] == DefaultCell(ty, i)
    requires EncValue(ty, i, v).Some? && |EncValue(ty, i, v).value| < TWO_32
    requires TypedCell(ty, i, One(true, CanonicalValue(ty, i, v)))
    ensures DecFields(ty, d, FieldTag(ty.fields[i]) + EncValue(ty, i, v).value + rest)
         == if TerminatedValue(ty, i, v) then DecFields(ty, Dest(Put(ty, d.message, i, One(true, CanonicalValue(ty, i, v))), d.seen + {i}), rest) else None
    decreases ty, 1
  {
    hide DecFields, DecValue, EncValue, CanonicalValue, TerminatedValue, TagBytes, DefaultValue;
    DefaultIsTyped(ty, i);
    ValueRoundTrip(ty, i, v, rest);
    var s := EncValue(ty, i, v).value + rest;
    TagIsRead(ty, d, i, WireType(ty.fields[i].kind), s);
    assert FieldTag(ty.fields[i]) + EncValue(ty, i, v).value + rest == FieldTag(ty.fields[i]) + s;
  }

  lemma {:induction false} CanonicalIsTyped(ty: MessageType, i: nat, v: Value)
    requires WellFormed(ty) && i < |ty.fields| && TypedValue(ty, i, v)
    ensures TypedValue(ty, i, CanonicalValue(ty, i, v))
    decreases ty, 0
  {
    assert FieldOk(ty, i);
    if ty.fields[i].kind.Submessage? {
      CanonicalMessageIsTyped(ty.fields[i].kind.ty, v.message);
    }
  }

  lemma {:induction false} CanonicalCellIsTyped(ty: MessageType, i: nat, c: Cell)
    requires WellFormed(ty) && i < |ty.fields| && TypedCell(ty, i, c)
    ensures TypedCell(ty, i, CanonicalCell(ty, i, c))
    decreases ty, 1
  {
    hide CanonicalValue, DefaultValue, TypedValue, WellFormed;
    DefaultIsTyped(ty, i);
    if c.One? {
      CanonicalIsTyped(ty, i, c.value);
    } else {
      forall k | 0 <= k < |c.items| ensures TypedValue(ty, i, CanonicalItems(ty, i, c.items)[k]) {
        CanonicalIsTyped(ty, i, c.items[k]);
      }
    }
  }

  lemma {:induction false} CanonicalMessageIsTyped(ty: MessageType, m: Message)
    requires WellFormed(ty) && Typed(ty, m)
    ensures Typed(ty, Canonical(ty, m))
    decreases ty, 2
  {
    hide TypedCell, CanonicalCell;
    forall i | 0 <= i < |ty.fields| ensures TypedCell(ty, i, CanonicalCell(ty, i, m.cells[i])) {
      CanonicalCellIsTyped(ty, i, m.cells[i]);
    }
  }

  // ------------------------------------------------------------------ arrays

  /** The numbers of a packed array, in order, behind those that are there. */
  lemma {:induction false} PackedRoundTrip(ty: MessageType, i: nat, items: seq<Value>, k: nat, tail: Slice)
    requires WellFormed(ty) && i < |ty.fields| && ty.fields[i].rule.Repeated? && Packable(ty.fields[i].kind)
    requires k <= |items| <= ty.fields[i].rule.most && forall j :: 0 <= j < |items| ==> TypedValue(ty, i, items[j])
    ensures DecPacked(ty, i, [], EncPacked(ty, i, items, k) + tail) == DecPacked(ty, i, items[..k], tail)
  {
    hide ScalarBytes, ReadScalar;
    if k == 0 {
      assert EncPacked(ty, i, items, 0) + tail == tail;
    } else {
      var scalar := ty.fields[i].kind.scalar;
      var one := ScalarBytes(scalar, items[k - 1].n);
      assert FieldOk(ty, i);
      PackedRoundTrip(ty, i, items, k - 1, one + tail);
      assert EncPacked(ty, i, items, k) + tail == EncPacked(ty, i, items, k - 1) + (one + tail);
      ScalarRoundTrip(scalar, items[k - 1].n, tail);
      assert items[..k - 1] + [Num(items[k - 1].n)] == items[..k];
      OneOf(ty, i, items[..k - 1], one + tail, items[k - 1].n, tail);
    }
  }

  lemma OneOf(ty: MessageType, i: nat, items: seq<Value>, s: Slice, n: int, rest: Slice)
    requires WellFormed(ty) && i < |ty.fields| && ty.fields[i].rule.Repeated? && Packable(ty.fields[i].kind)
    requires |items| < ty.fields[i].rule.most && forall j :: 0 <= j < |items| ==> TypedValue(ty, i, items[j])
    requires WidthOk(ty.fields[i].kind.scalar) && ReadScalar(ty.fields[i].kind.scalar, s) == Some((n, rest))
    ensures TypedValue(ty, i, Num(n))
    ensures DecPacked(ty, i, items, s) == DecPacked(ty, i, items + [Num(n)], rest)
  {
    hide ReadScalar;
    ReadsInRange(ty.fields[i].kind.scalar, s);
    assert s != [];
  }

  /** Values with a tag each. */
  lemma {:induction false} ItemsRoundTrip(ty: MessageType, d: Dest, i: nat, items: seq<Value>, k: nat, rest: Slice)
    requires WellFormed(ty) && Typed(ty, d.message) && i < |ty.fields| && ty.fields[i].rule.Repeated? && !Packable(ty.fields[i].kind)
    requires k <= |items| <= ty.fields[i].rule.most && TypedCell(ty, i, Many(items)) && d.message.cells[i] == Many([])
    requires EncItems(ty, i, items, k).Some? && |EncItems(ty, i, items, k).value| < TWO_32
    requires TypedCell(ty, i, Many(CanonicalItems(ty, i, items)[..k]))
    ensures DecFields(ty, d, EncItems(ty, i, items, k).value + rest)
         == if forall j :: 0 <= j < k ==> TerminatedValue(ty, i, items[j])
            then DecFields(ty, Dest(Put(ty, d.message, i, Many(CanonicalItems(ty, i, items)[..k])), if k == 0 then d.seen else d.seen + {i}), rest)
            else None
    decreases ty, 1, k
  {
    hide DecFields, DecValue, EncValue, CanonicalValue, TerminatedValue, TagBytes, DefaultValue, WellFormed, TypedValue;
    var canonical := CanonicalItems(ty, i, items);
    if k == 0 {
      assert EncItems(ty, i, items, 0).value + rest == rest;
      assert d.message.cells[i := Many(canonical[..0])] == d.message.cells;
    } else {
      var v := items[k - 1];
      var one := EncValue(ty, i, v).value;
      var last := FieldTag(ty.fields[i]) + (one + rest);
      assert EncItems(ty, i, items, k).value + rest == EncItems(ty, i, items, k - 1).value + last;
      assert canonical[..k - 1] == canonical[..k][..k - 1];
      ItemsRoundTrip(ty, d, i, items, k - 1, last);
      DefaultIsTyped(ty, i);
      ValueRoundTrip(ty, i, v, rest);
      var so := Put(ty, d.message, i, Many(canonical[..k - 1]));
      var d' := Dest(so, if k == 1 then d.seen else d.seen + {i});
      TagIsRead(ty, d', i, WireType(ty.fields[i].kind), one + rest);
      assert canonical[..k - 1] + [canonical[k - 1]] == canonical[..k];
      assert so.cells[i := Many(canonical[..k])] == d.message.cells[i := Many(canonical[..k])];
      assert d'.seen + {i} == d.seen + {i};
    }
  }

  // ------------------------------------------------------------------ whole messages

  /** A field of a message, whatever its rule, in a place that still has its default. */
  lemma {:induction false} CellRoundTrip(ty: MessageType, d: Dest, i: nat, c: Cell, rest: Slice)
    requires WellFormed(ty) && Typed(ty, d.message) && i < |ty.fields| && TypedCell(ty, i, c)
    requires d.message.cells[i] == DefaultCell(ty, i)
    requires EncCell(ty, i, c).Some? && |EncCell(ty, i, c).value| < TWO_32
    requires TypedCell(ty, i, CanonicalCell(ty, i, c))
    ensures DecFields(ty, d, EncCell(ty, i, c).value + rest)
         == if TerminatedCell(ty, i, c)
            then DecFields(ty, Dest(Put(ty, d.message, i, CanonicalCell(ty, i, c)), if Written(ty, i, c) then d.seen + {i} else d.seen), rest)
            else None
    decreases ty, 2
  {
    hide DecFields, DecValue, EncValue, CanonicalValue, TerminatedValue, TagBytes, FieldTag, DefaultValue, WellFormed, TypedValue;
    if !Written(ty, i, c) {
      assert EncCell(ty, i, c).value + rest == rest;
      assert d.message.cells[i := DefaultCell(ty, i)] == d.message.cells;
      if ty.fields[i].rule.Repeated? {
        assert CanonicalItems(ty, i, c.items) == [];
      }
    } else if !ty.fields[i].rule.Repeated? {
      TaggedRoundTrip(ty, d, i, c.value, rest);
    } else if Packable(ty.fields[i].kind) {
      PackedCellRoundTrip(ty, d, i, c, rest);
    } else {
      var n := |c.items|;
      assert CanonicalItems(ty, i, c.items)[..n] == CanonicalItems(ty, i, c.items);
      ItemsRoundTrip(ty, d, i, c.items, n, rest);
    }
  }

  lemma PackedCellRoundTrip(ty: MessageType, d: Dest, i: nat, c: Cell, rest: Slice)
    requires WellFormed(ty) && Typed(ty, d.message) && i < |ty.fields| && TypedCell(ty, i, c)
    requires ty.fields[i].rule.Repeated? && Packable(ty.fields[i].kind) && d.message.cells[i] == Many([])
    requires 0 < |c.items| <= ty.fields[i].rule.most && |EncCell(ty, i, c).value| < TWO_32
    requires TypedCell(ty, i, CanonicalCell(ty, i, c))
    ensures TerminatedCell(ty, i, c)
    ensures DecFields(ty, d, EncCell(ty, i, c).value + rest)
         == DecFields(ty, Dest(Put(ty, d.message, i, CanonicalCell(ty, i, c)), d.seen + {i}), rest)
  {
    hide DecFields, DecPacked, EncPacked, TagBytes, WellFormed, Substream, VarintBytes;
    var items := c.items;
    var n := |items|;
    var body := EncPacked(ty, i, items, n);
    assert |LengthPrefixed(body)| >= |body|;
    LengthIsRead(body, rest);
    PackedRoundTrip(ty, i, items, n, []);
    assert body + [] == body && items[..n] == items;
    PackedEnds(ty, i, items);
    TagIsRead(ty, d, i, WT_STRING, LengthPrefixed(body) + rest);
    assert EncCell(ty, i, c).value + rest == TagBytes(ty.fields[i].tag, WT_STRING) + (LengthPrefixed(body) + rest);
    assert CanonicalItems(ty, i, items) == items;
  }

  lemma PackedEnds(ty: MessageType, i: nat, items: seq<Value>)
    requires WellFormed(ty) && i < |ty.fields| && ty.fields[i].rule.Repeated? && Packable(ty.fields[i].kind)
    requires forall j :: 0 <= j < |items| ==> TypedValue(ty, i, items[j])
    ensures DecPacked(ty, i, items, []) == Some(items)
  {
  }

  /** A struct at its defaults, of which the first `i` fields have been read. */
  function Partly(ty: MessageType, m: Message, i: nat): (r: Message)
    requires Typed(ty, m) && i <= |ty.fields|
    ensures |r.cells| == |ty.fields|
    ensures forall j :: 0 <= j < |ty.fields| ==> r.cells[j] == if j < i then CanonicalCell(ty, j, m.cells[j]) else DefaultCell(ty, j)
  {
    Message(seq(|ty.fields|, j requires 0 <= j < |ty.fields| => if j < i then CanonicalCell(ty, j, m.cells[j]) else DefaultCell(ty, j)))
  }

  lemma PartlyIsTyped(ty: MessageType, m: Message, i: nat)
    requires WellFormed(ty) && Typed(ty, m) && i <= |ty.fields|
    ensures Typed(ty, Partly(ty, m, i))
  {
    hide TypedCell, CanonicalCell, DefaultCell, WellFormed;
    DefaultsAreTyped(ty);
    CanonicalMessageIsTyped(ty, m);
    forall j | 0 <= j < |ty.fields| ensures TypedCell(ty, j, Partly(ty, m, i).cells[j]) {
      assert Canonical(ty, m).cells[j] == CanonicalCell(ty, j, m.cells[j]) && Defaults(ty).cells[j] == DefaultCell(ty, j);
    }
  }

  function WrittenBefore(ty: MessageType, m: Message, i: nat): set<nat>
    requires Typed(ty, m) && i <= |ty.fields|
  {
    set j: nat | j < i && Written(ty, j, m.cells[j])
  }

  lemma {:induction false} FieldsRoundTrip(ty: MessageType, m: Message, i: nat, rest: Slice)
    requires WellFormed(ty) && Typed(ty, m) && i <= |ty.fields|
    requires EncFields(ty, m, i).Some? && |EncFields(ty, m, i).value| < TWO_32
    requires Typed(ty, Defaults(ty)) && Typed(ty, Partly(ty, m, i))
    ensures DecFields(ty, Dest(Defaults(ty), {}), EncFields(ty, m, i).value + rest)
         == if forall j :: 0 <= j < i ==> TerminatedCell(ty, j, m.cells[j])
            then DecFields(ty, Dest(Partly(ty, m, i), WrittenBefore(ty, m, i)), rest)
            else None
    decreases ty, 3, i
  {
    hide DecFields, EncCell, CanonicalCell, TerminatedCell, DefaultCell, WellFormed, TypedCell, Written;
    if i == 0 {
      assert EncFields(ty, m, 0).value + rest == rest;
      assert Partly(ty, m, 0).cells == Defaults(ty).cells;
      assert WrittenBefore(ty, m, 0) == {};
    } else {
      var k := i - 1;
      var c := m.cells[k];
      var one := EncCell(ty, k, c).value;
      assert EncFields(ty, m, i).value + rest == EncFields(ty, m, k).value + (one + rest);
      PartlyIsTyped(ty, m, k);
      FieldsRoundTrip(ty, m, k, one + rest);
      var d := Dest(Partly(ty, m, k), WrittenBefore(ty, m, k));
      CanonicalCellIsTyped(ty, k, c);
      CellRoundTrip(ty, d, k, c, rest);
      assert Partly(ty, m, k).cells[k := CanonicalCell(ty, k, c)] == Partly(ty, m, i).cells;
      assert WrittenBefore(ty, m, i) == if Written(ty, k, c) then d.seen + {k} else d.seen;
    }
  }

  /**
   * Decoding what was encoded gives the struct back, but for absent fields, exactly if no text of it fills its buffer; a
   * text without a terminator is encoded, and then refused by the decoder.
   */
  lemma {:induction false} MessageRoundTrip(ty: MessageType, m: Message)
    requires WellFormed(ty) && Typed(ty, m)
    requires EncMessage(ty, m).Some? && |EncMessage(ty, m).value| < TWO_32
    ensures Typed(ty, Defaults(ty))
    ensures DecMessage(ty, Defaults(ty), EncMessage(ty, m).value) == if Terminated(ty, m) then Some(Canonical(ty, m)) else None
    decreases ty, 4
  {
    hide DecFields, CanonicalCell, TerminatedCell, WellFormed, TypedCell;
    var n := |ty.fields|;
    DefaultsAreTyped(ty);
    PartlyIsTyped(ty, m, n);
    FieldsRoundTrip(ty, m, n, []);
    assert EncFields(ty, m, n).value + [] == EncFields(ty, m, n).value;
    assert Partly(ty, m, n).cells == Canonical(ty, m).cells;
    NoFields(ty, Dest(Partly(ty, m, n), WrittenBefore(ty, m, n)));
  }

  // ------------------------------------------------------------------ more input behind

  lemma {:induction false} CollectedOfMore(s: Slice, n: nat, t: Slice)
    requires n <= |s|
    ensures Collected(s + t, n) == Collected(s, n)
  {
    hide Or, Shifted, BitPos;
    if n > 0 {
      CollectedOfMore(s, n - 1, t);
      assert (s + t)[n - 1] == s[n - 1];
    }
  }

  lemma Varint32OfMore(s: Slice, t: Slice)
    requires Varint32(s).Some?
    ensures var (v, rest) := Varint32(s).value; Varint32(s + t) == Some((v, rest + t))
  {
    hide Collected, End, BitPos;
    EndAppend(s, t);
    var e := End(s);
    forall i | 0 <= i <= e
      ensures NothingLost(s + t, i) <==> NothingLost(s, i)
    {
      CollectedOfMore(s, i, t);
      assert (s + t)[i] == s[i];
    }
    CollectedOfMore(s, e + 1, t);
    assert (s + t)[e + 1..] == s[e + 1..] + t;
  }

  lemma VarintOfMore(s: Slice, t: Slice)
    requires Varint(s, 10, TWO_64).Some?
    ensures var (v, rest) := Varint(s, 10, TWO_64).value; Varint(s + t, 10, TWO_64) == Some((v, rest + t))
  {
    EndAppend(s, t);
    var e := End(s);
    assert (s + t)[..e + 1] == s[..e + 1] && (s + t)[e + 1..] == s[e + 1..] + t;
  }

  lemma SubstreamOfMore(s: Slice, t: Slice)
    requires Substream(s).Some?
    ensures Substream(s + t) == Some((Substream(s).value.0, Substream(s).value.1 + t))
  {
    hide Varint32;
    Varint32OfMore(s, t);
    var (n, rest) := Varint32(s).value;
    assert (rest + t)[..n] == rest[..n] && (rest + t)[n..] == rest[n..] + t;
  }

  lemma SkipOfMore(wireType: nat, s: Slice, t: Slice)
    requires Skip(wireType, s).Some?
    ensures Skip(wireType, s + t) == Some(Skip(wireType, s).value + t)
  {
    hide Substream, End;
    if wireType == WT_VARINT {
      EndAppend(s, t);
      assert (s + t)[End(s) + 1..] == s[End(s) + 1..] + t;
    } else if wireType == WT_64BIT {
      assert (s + t)[8..] == s[8..] + t;
    } else if wireType == WT_STRING {
      SubstreamOfMore(s, t);
    } else {
      assert (s + t)[4..] == s[4..] + t;
    }
  }

  lemma ScalarOfMore(kind: Scalar, s: Slice, t: Slice)
    requires WidthOk(kind) && ReadScalar(kind, s).Some?
    ensures ReadScalar(kind, s + t) == Some((ReadScalar(kind, s).value.0, ReadScalar(kind, s).value.1 + t))
  {
    hide Varint, FixedValue;
    if kind.Fixed32? {
      assert (s + t)[..4] == s[..4] && (s + t)[4..] == s[4..] + t;
    } else if kind.Fixed64? {
      assert (s + t)[..8] == s[..8] && (s + t)[8..] == s[8..] + t;
    } else {
      VarintOfMore(s, t);
    }
  }

  lemma ValueOfMore(ty: MessageType, i: nat, v: Value, s: Slice, t: Slice)
    requires WellFormed(ty) && i < |ty.fields| && TypedValue(ty, i, v) && DecValue(ty, i, v, s).Some?
    ensures DecValue(ty, i, v, s + t) == Some((DecValue(ty, i, v, s).value.0, DecValue(ty, i, v, s).value.1 + t))
  {
    hide Varint32, ReadScalar, DecMessage, Substream, UpToNul;
    assert FieldOk(ty, i);
    match ty.fields[i].kind {
      case Number(scalar) =>
        ScalarOfMore(scalar, s, t);
      case Submessage(_) =>
        SubstreamOfMore(s, t);
      case _ =>
        Varint32OfMore(s, t);
        var (n, rest) := Varint32(s).value;
        if n <= |rest| {
          assert (rest + t)[..n] == rest[..n] && (rest + t)[n..] == rest[n..] + t;
        }
    }
  }

  lemma FieldOfMore(ty: MessageType, i: nat, c: Cell, wireType: nat, s: Slice, t: Slice)
    requires WellFormed(ty) && i < |ty.fields| && TypedCell(ty, i, c) && DecField(ty, i, c, wireType, s).Some?
    ensures DecField(ty, i, c, wireType, s + t)
         == Some((DecField(ty, i, c, wireType, s).value.0, DecField(ty, i, c, wireType, s).value.1 + t))
  {
    hide DecValue, DecPacked, Substream, DefaultValue, WellFormed;
    if c.One? {
      ValueOfMore(ty, i, c.value, s, t);
    } else if wireType == WT_STRING && Packable(ty.fields[i].kind) {
      SubstreamOfMore(s, t);
    } else {
      DefaultIsTyped(ty, i);
      ValueOfMore(ty, i, DefaultValue(ty, i), s, t);
    }
  }

  lemma OneOfMore(ty: MessageType, d: Dest, s: Slice, t: Slice)
    requires WellFormed(ty) && Typed(ty, d.message) && DecOne(ty, d, s).Next?
    ensures DecOne(ty, d, s + t) == Next(DecOne(ty, d, s).dest, DecOne(ty, d, s).rest + t)
  {
    hide Varint32, DecField, Skip, FieldWith, WellFormed;
    Varint32OfMore(s, t);
    var (key, rest) := Varint32(s).value;
    var i := FieldWith(ty, key / 8, 0);
    if i < |ty.fields| {
      FieldOfMore(ty, i, d.message.cells[i], key % 8, rest, t);
    } else {
      SkipOfMore(key % 8, rest, t);
    }
  }

  // ------------------------------------------------------------------ unknown fields

  /** What an input of whole fields, and nothing else, makes of a struct. */
  function WholeFields(ty: MessageType, d: Dest, s: Slice): (r: Option<Dest>)
    requires WellFormed(ty) && Typed(ty, d.message)
    ensures r.Some? ==> Typed(ty, r.value.message)
    decreases |s|
  {
    if s == [] then Some(d) else
      match DecOne(ty, d, s)
      case Next(d', rest) => WholeFields(ty, d', rest)
      case _ => None
  }

  /** After whole fields, the loop goes on with what follows from the struct they made. */
  lemma {:induction false} AfterWholeFields(ty: MessageType, d: Dest, s: Slice, t: Slice)
    requires WellFormed(ty) && Typed(ty, d.message) && WholeFields(ty, d, s).Some?
    ensures DecFields(ty, d, s + t) == DecFields(ty, WholeFields(ty, d, s).value, t)
    decreases |s|
  {
    hide DecOne;
    if s == [] {
      assert s + t == t;
    } else {
      OneOfMore(ty, d, s, t);
      AfterWholeFields(ty, DecOne(ty, d, s).dest, DecOne(ty, d, s).rest, t);
    }
  }

  /** Well-formed fields whose tags the type does not have. */
  predicate UnknownFields(ty: MessageType, s: Slice)
    decreases |s|
  {
    s == [] ||
    match Varint32(s)
    case None => false
    case Some((key, rest)) =>
      key != 0 && !Knows(ty, key / 8) && (ty.fields == [] ==> key / 8 != 0)
      && Skip(key % 8, rest).Some? && UnknownFields(ty, Skip(key % 8, rest).value)
  }

  lemma {:induction false} UnknownFieldsAreSkipped(ty: MessageType, d: Dest, s: Slice)
    requires WellFormed(ty) && Typed(ty, d.message) && UnknownFields(ty, s)
    ensures WholeFields(ty, d, s) == Some(d)
    decreases |s|
  {
    hide Varint32, DecField, Skip;
    if s != [] {
      var (key, rest) := Varint32(s).value;
      FieldWithIs(ty, key / 8, 0);
      UnknownFieldsAreSkipped(ty, d, Skip(key % 8, rest).value);
    }
  }

  /** Unknown fields put in between the fields of a message change nothing of what is decoded, or of whether it is. */
  lemma UnknownFieldsIgnored(ty: MessageType, m: Message, before: Slice, unknown: Slice, after: Slice)
    requires WellFormed(ty) && Typed(ty, m) && WholeFields(ty, Dest(m, {}), before).Some? && UnknownFields(ty, unknown)
    ensures DecMessage(ty, m, before + unknown + after) == DecMessage(ty, m, before + after)
  {
    hide WholeFields, DecFields, UnknownFields, AllSeen;
    var d := WholeFields(ty, Dest(m, {}), before).value;
    UnknownFieldsAreSkipped(ty, d, unknown);
    AfterWholeFields(ty, Dest(m, {}), before, unknown + after);
    AfterWholeFields(ty, d, unknown, after);
    AfterWholeFields(ty, Dest(m, {}), before, after);
    assert before + unknown + after == before + (unknown + after);
  }

  /** The same among the fields of a message as the encoder writes it. */
  lemma UnknownAmongEncoded(ty: MessageType, m: Message, i: nat, unknown: Slice, after: Slice)
    requires WellFormed(ty) && Typed(ty, m) && i <= |ty.fields| && UnknownFields(ty, unknown)
    requires EncFields(ty, m, i).Some? && EncMessage(ty, m) == Some(EncFields(ty, m, i).value + after)
    requires |EncMessage(ty, m).value| < TWO_32
    ensures Typed(ty, Defaults(ty))
    ensures DecMessage(ty, Defaults(ty), EncFields(ty, m, i).value + unknown + after)
         == if Terminated(ty, m) then Some(Canonical(ty, m)) else None
  {
    hide WholeFields, DecFields, UnknownFields, AllSeen, EncFields, WellFormed, Terminated, TerminatedCell;
    DefaultsAreTyped(ty);
    PartlyIsTyped(ty, m, i);
    var d := Dest(Partly(ty, m, i), WrittenBefore(ty, m, i));
    var before := EncFields(ty, m, i).value;
    MessageRoundTrip(ty, m);
    FieldsRoundTrip(ty, m, i, after);
    FieldsRoundTrip(ty, m, i, unknown + after);
    UnknownFieldsAreSkipped(ty, d, unknown);
    AfterWholeFields(ty, d, unknown, after);
    assert before + unknown + after == before + (unknown + after);
  }

  // ------------------------------------------------------------------ what a decoded message is like

  /** Everything within its declared size, and every absent field at its default. */
  predicate Fit(ty: MessageType, m: Message)
    requires Typed(ty, m)
    decreases ty
  {
    forall i :: 0 <= i < |ty.fields| ==> FitCell(ty, i, m.cells[i])
  }

  predicate FitCell(ty: MessageType, i: nat, c: Cell)
    requires i < |ty.fields| && TypedCell(ty, i, c)
    decreases ty, 1
  {
    match ty.fields[i].rule
    case Required => FitValue(ty, i, c.value)
    case Optional => FitValue(ty, i, c.value) && (!c.has ==> c == DefaultCell(ty, i))
    case Repeated(most) => |c.items| <= most && forall k :: 0 <= k < |c.items| ==> FitValue(ty, i, c.items[k])
  }

  predicate FitValue(ty: MessageType, i: nat, v: Value)
    requires i < |ty.fields| && TypedValue(ty, i, v)
    decreases ty, 0
  {
    var kind := ty.fields[i].kind;
    if kind.Submessage? then Fit(kind.ty, v.message) else HasRoom(kind, v)
  }

  lemma {:induction false} DefaultsFit(ty: MessageType)
    requires WellFormed(ty)
    ensures Typed(ty, Defaults(ty)) && Fit(ty, Defaults(ty))
    decreases ty, 1
  {
    hide DefaultValue, FitValue, WellFormed, TypedValue;
    DefaultsAreTyped(ty);
    forall i | 0 <= i < |ty.fields| ensures FitCell(ty, i, Defaults(ty).cells[i]) {
      DefaultFits(ty, i);
    }
  }

  lemma {:induction false} DefaultFits(ty: MessageType, i: nat)
    requires WellFormed(ty) && i < |ty.fields|
    ensures TypedValue(ty, i, DefaultValue(ty, i)) && FitValue(ty, i, DefaultValue(ty, i))
    decreases ty, 0
  {
    DefaultIsTyped(ty, i);
    assert FieldOk(ty, i);
    if ty.fields[i].kind.Submessage? {
      DefaultsFit(ty.fields[i].kind.ty);
    }
  }

  lemma {:induction false} PackedFits(ty: MessageType, i: nat, items: seq<Value>, s: Slice)
    requires WellFormed(ty) && i < |ty.fields| && ty.fields[i].rule.Repeated? && Packable(ty.fields[i].kind)
    requires |items| <= ty.fields[i].rule.most && forall k :: 0 <= k < |items| ==> TypedValue(ty, i, items[k])
    requires DecPacked(ty, i, items, s).Some?
    ensures |DecPacked(ty, i, items, s).value| <= ty.fields[i].rule.most
    decreases |s|
  {
    hide ReadScalar;
    if s != [] {
      assert FieldOk(ty, i);
      ReadsInRange(ty.fields[i].kind.scalar, s);
      var (n, rest) := ReadScalar(ty.fields[i].kind.scalar, s).value;
      PackedFits(ty, i, items + [Num(n)], rest);
    }
  }

  lemma {:induction false} ValueFits(ty: MessageType, i: nat, v: Value, s: Slice)
    requires WellFormed(ty) && i < |ty.fields| && TypedValue(ty, i, v) && FitValue(ty, i, v)
    requires DecValue(ty, i, v, s).Some?
    ensures FitValue(ty, i, DecValue(ty, i, v, s).value.0)
    decreases |s|, 0
  {
    hide Varint32, ReadScalar, DecMessage, Fit;
    assert FieldOk(ty, i);
    if ty.fields[i].kind.Submessage? {
      DecodedFits(ty.fields[i].kind.ty, v.message, Substream(s).value.0);
    }
  }

  lemma {:induction false} FieldFits(ty: MessageType, i: nat, c: Cell, wireType: nat, s: Slice)
    requires WellFormed(ty) && i < |ty.fields| && TypedCell(ty, i, c) && FitCell(ty, i, c)
    requires DecField(ty, i, c, wireType, s).Some?
    ensures FitCell(ty, i, DecField(ty, i, c, wireType, s).value.0)
    decreases |s|, 1
  {
    hide DecValue, DecPacked, Substream, DefaultValue, WellFormed, TypedValue, FitValue;
    if c.One? {
      ValueFits(ty, i, c.value, s);
    } else if wireType == WT_STRING && Packable(ty.fields[i].kind) {
      PackedFits(ty, i, c.items, Substream(s).value.0);
      NumbersFit(ty, i, DecField(ty, i, c, wireType, s).value.0.items);
    } else {
      DefaultFits(ty, i);
      ValueFits(ty, i, DefaultValue(ty, i), s);
    }
  }

  lemma NumbersFit(ty: MessageType, i: nat, items: seq<Value>)
    requires i < |ty.fields| && Packable(ty.fields[i].kind) && forall k :: 0 <= k < |items| ==> TypedValue(ty, i, items[k])
    ensures forall k :: 0 <= k < |items| ==> FitValue(ty, i, items[k])
  {
  }

  lemma {:induction false} FieldsFit(ty: MessageType, d: Dest, s: Slice)
    requires WellFormed(ty) && Typed(ty, d.message) && Fit(ty, d.message) && DecFields(ty, d, s).Some?
    ensures Fit(ty, DecFields(ty, d, s).value.message)
    decreases |s|, 2
  {
    hide Varint32, DecField, FieldWith, WellFormed, TypedCell, FitCell, Skip;
    if s != [] {
      var next := DecOne(ty, d, s);
      if next.Next? {
        var (key, rest) := Varint32(s).value;
        var i := FieldWith(ty, key / 8, 0);
        if i < |ty.fields| {
          FieldFits(ty, i, d.message.cells[i], key % 8, rest);
        }
        FieldsFit(ty, next.dest, next.rest);
      }
    }
  }

  lemma {:induction false} DecodedFits(ty: MessageType, m: Message, s: Slice)
    requires WellFormed(ty) && Typed(ty, m) && Fit(ty, m) && DecMessage(ty, m, s).Some?
    ensures Fit(ty, DecMessage(ty, m, s).value)
    decreases |s|, 3
  {
    hide DecFields, WellFormed, Fit, AllSeen;
    FieldsFit(ty, Dest(m, {}), s);
  }

  lemma {:induction false} FitValueEncodes(ty: MessageType, i: nat, v: Value)
    requires WellFormed(ty) && i < |ty.fields| && TypedValue(ty, i, v) && FitValue(ty, i, v)
    ensures EncValue(ty, i, v).Some? && TerminatedValue(ty, i, v) && CanonicalValue(ty, i, v) == v
    decreases ty, 0
  {
    hide EncMessage, Terminated, Fit, VarintBytes, ScalarBytes;
    assert FieldOk(ty, i);
    if ty.fields[i].kind.Submessage? {
      FitEncodes(ty.fields[i].kind.ty, v.message);
    }
  }

  lemma {:induction false} FitItemsEncode(ty: MessageType, i: nat, items: seq<Value>, k: nat)
    requires WellFormed(ty) && i < |ty.fields| && k <= |items|
    requires forall j :: 0 <= j < |items| ==> TypedValue(ty, i, items[j]) && FitValue(ty, i, items[j])
    ensures EncItems(ty, i, items, k).Some?
    decreases ty, 1, k
  {
    hide EncValue, TypedValue, FitValue, WellFormed;
    if k > 0 {
      FitItemsEncode(ty, i, items, k - 1);
      FitValueEncodes(ty, i, items[k - 1]);
    }
  }

  lemma {:induction false} FitCellEncodes(ty: MessageType, i: nat, c: Cell)
    requires WellFormed(ty) && i < |ty.fields| && TypedCell(ty, i, c) && FitCell(ty, i, c)
    ensures EncCell(ty, i, c).Some? && TerminatedCell(ty, i, c) && CanonicalCell(ty, i, c) == c
    decreases ty, 2
  {
    hide EncValue, TypedValue, FitValue, WellFormed, EncItems, EncPacked, TerminatedValue, CanonicalValue;
    if c.One? {
      FitValueEncodes(ty, i, c.value);
    } else {
      FitItemsEncode(ty, i, c.items, |c.items|);
      forall k | 0 <= k < |c.items| ensures TerminatedValue(ty, i, c.items[k]) && CanonicalValue(ty, i, c.items[k]) == c.items[k] {
        FitValueEncodes(ty, i, c.items[k]);
      }
      assert CanonicalItems(ty, i, c.items) == c.items;
    }
  }

  lemma {:induction false} FitFieldsEncode(ty: MessageType, m: Message, i: nat)
    requires Typed(ty, m) && i <= |ty.fields|
    requires forall j :: 0 <= j < i ==> EncCell(ty, j, m.cells[j]).Some?
    ensures EncFields(ty, m, i).Some?
  {
    hide EncCell, TypedCell;
    if i > 0 {
      FitFieldsEncode(ty, m, i - 1);
    }
  }

  lemma {:induction false} FitEncodes(ty: MessageType, m: Message)
    requires WellFormed(ty) && Typed(ty, m) && Fit(ty, m)
    ensures EncMessage(ty, m).Some? && Terminated(ty, m) && Canonical(ty, m) == m
    decreases ty, 3
  {
    hide EncCell, TypedCell, TerminatedCell, CanonicalCell, FitCell, WellFormed;
    forall i | 0 <= i < |ty.fields|
      ensures EncCell(ty, i, m.cells[i]).Some? && TerminatedCell(ty, i, m.cells[i]) && CanonicalCell(ty, i, m.cells[i]) == m.cells[i]
    {
      FitCellEncodes(ty, i, m.cells[i]);
    }
    FitFieldsEncode(ty, m, |ty.fields|);
    assert Canonical(ty, m).cells == m.cells;
  }

  /** Whatever could be decoded can be encoded, and decodes to the same struct again. */
  lemma DecodedIsReencoded(ty: MessageType, s: Slice)
    requires WellFormed(ty)
    ensures Typed(ty, Defaults(ty))
    ensures DecMessage(ty, Defaults(ty), s).Some? ==>
      var m := DecMessage(ty, Defaults(ty), s).value;
      EncMessage(ty, m).Some? && (|EncMessage(ty, m).value| < TWO_32 ==> DecMessage(ty, Defaults(ty), EncMessage(ty, m).value) == Some(m))
  {
    hide DecMessage, EncMessage, Fit, Terminated, Canonical, WellFormed, Typed;
    DefaultsFit(ty);
    if DecMessage(ty, Defaults(ty), s).Some? {
      var m := DecMessage(ty, Defaults(ty), s).value;
      DecodedFits(ty, Defaults(ty), s);
      FitEncodes(ty, m);
      if |EncMessage(ty, m).value| < TWO_32 {
        MessageRoundTrip(ty, m);
      }
    }
  }
}
