/** nanopb's message descriptors, its circular field iterator (pb_common.c) and the bitmap of required fields (pb_decode.c). */
module PbFields {
  import opened Bytes
  import opened InternalKeys
  import opened Coding
  import opened PbScalars

  // ------------------------------------------------------------------ descriptors and messages

  datatype Rule = Required | Optional | Repeated(most: nat)

  /** `size` of a string counts its terminator; that of a bytes field does not count its length. */
  datatype FieldType = Number(scalar: Scalar) | Bytes(size: nat) | Text(size: nat) | FixedBytes(size: nat) | Submessage(ty: MessageType)

  /** One pb_field_t; `initial` is what its default value, or zeros, leave in a field that is no submessage. */
  datatype Field = Field(tag: nat, rule: Rule, kind: FieldType, initial: Value)

  datatype MessageType = MessageType(fields: seq<Field>)

  /** A text is what precedes its terminator; as long as its buffer, it has none. */
  datatype Value = Num(n: int) | Data(bytes: Slice) | Struct(message: Message)

  /** A field of a struct: a value with its has_ flag, or the used part of an array. */
  datatype Cell = One(has: bool, value: Value) | Many(items: seq<Value>)

  datatype Message = Message(cells: seq<Cell>)

  const MAX_TAG: nat := 0x2000_0000

  predicate TagsOk(ty: MessageType)
  {
    && (forall i :: 0 <= i < |ty.fields| ==> 0 < ty.fields[i].tag < MAX_TAG)
    && (forall i, j :: 0 <= i < j < |ty.fields| ==> ty.fields[i].tag != ty.fields[j].tag)
  }

  predicate WellFormed(ty: MessageType)
    decreases ty
  {
    && TagsOk(ty)
    && (forall i :: 0 <= i < |ty.fields| ==> FieldOk(ty, i))
  }

  predicate FieldOk(ty: MessageType, i: nat)
    requires i < |ty.fields|
    decreases ty, 0
  {
    var kind := ty.fields[i].kind;
    match kind
    case Number(scalar) => WidthOk(scalar) && HasKind(kind, ty.fields[i].initial)
    case Submessage(sub) => WellFormed(sub)
    case _ => HasKind(kind, ty.fields[i].initial) && HasRoom(kind, ty.fields[i].initial)
  }

  /** Bytes within their array, and a text with its terminator. */
  predicate HasRoom(kind: FieldType, v: Value)
    requires HasKind(kind, v)
  {
    match kind
    case Bytes(size) => |v.bytes| <= size
    case Text(size) => |v.bytes| < size
    case _ => true
  }

  /** What the C type of a field that is no submessage can hold. */
  predicate HasKind(kind: FieldType, v: Value)
  {
    match kind
    case Number(scalar) => v.Num? && WidthOk(scalar) && InRange(scalar, v.n)
    case Bytes(_) => v.Data?
    case Text(size) => v.Data? && |v.bytes| <= size && 0 !in v.bytes
    case FixedBytes(size) => v.Data? && |v.bytes| == size
    case Submessage(_) => true
  }

  /** A struct of that type. */
  predicate Typed(ty: MessageType, m: Message)
    decreases ty
  {
    |m.cells| == |ty.fields| && forall i :: 0 <= i < |ty.fields| ==> TypedCell(ty, i, m.cells[i])
  }

  predicate TypedCell(ty: MessageType, i: nat, c: Cell)
    requires i < |ty.fields|
    decreases ty, 1
  {
    match ty.fields[i].rule
    case Required => c.One? && c.has && TypedValue(ty, i, c.value)
    case Optional => c.One? && TypedValue(ty, i, c.value)
    case Repeated(_) => c.Many? && forall k :: 0 <= k < |c.items| ==> TypedValue(ty, i, c.items[k])
  }

  predicate TypedValue(ty: MessageType, i: nat, v: Value)
    requires i < |ty.fields|
    decreases ty, 0
  {
    var kind := ty.fields[i].kind;
    if kind.Submessage? then v.Struct? && Typed(kind.ty, v.message) else HasKind(kind, v)
  }

  // ------------------------------------------------------------------ defaults

  /** pb_message_set_to_defaults. */
  function Defaults(ty: MessageType): (m: Message)
    ensures |m.cells| == |ty.fields|
    ensures forall i :: 0 <= i < |ty.fields| ==> m.cells[i] == DefaultCell(ty, i)
    decreases ty
  {
    Message(seq(|ty.fields|, i requires 0 <= i < |ty.fields| => DefaultCell(ty, i)))
  }

  /** pb_field_set_to_default; a required field has no flag, and counts as there. */
  function DefaultCell(ty: MessageType, i: nat): Cell
    requires i < |ty.fields|
    decreases ty, 1
  {
    match ty.fields[i].rule
    case Required => One(true, DefaultValue(ty, i))
    case Optional => One(false, DefaultValue(ty, i))
    case Repeated(_) => Many([])
  }

  function DefaultValue(ty: MessageType, i: nat): Value
    requires i < |ty.fields|
    decreases ty, 0
  {
    match ty.fields[i].kind
    case Submessage(sub) => Struct(Defaults(sub))
    case _ => ty.fields[i].initial
  }

  lemma {:induction false} DefaultsAreTyped(ty: MessageType)
    requires WellFormed(ty)
    ensures Typed(ty, Defaults(ty))
    decreases ty
  {
    forall i | 0 <= i < |ty.fields| ensures TypedCell(ty, i, DefaultCell(ty, i)) {
      DefaultIsTyped(ty, i);
    }
  }

  lemma {:induction false} DefaultIsTyped(ty: MessageType, i: nat)
    requires i < |ty.fields| && WellFormed(ty)
    ensures TypedValue(ty, i, DefaultValue(ty, i))
    decreases ty, 0
  {
    assert FieldOk(ty, i);
    if ty.fields[i].kind.Submessage? {
      DefaultsAreTyped(ty.fields[i].kind.ty);
    }
  }

  // ------------------------------------------------------------------ the iterator

  /** How many required fields come before field `i`. */
  function RequiredBefore(ty: MessageType, i: nat): (r: nat)
    requires i <= |ty.fields|
    ensures r <= i
  {
    if i == 0 then 0 else RequiredBefore(ty, i - 1) + (if ty.fields[i - 1].rule.Required? then 1 else 0)
  }

  /** The tag at a position; behind the last field stands the terminator, of tag 0. */
  function TagAt(ty: MessageType, i: nat): nat
  {
    if i < |ty.fields| then ty.fields[i].tag else 0
  }

  predicate Knows(ty: MessageType, tag: nat)
  {
    exists i :: 0 <= i < |ty.fields| && ty.fields[i].tag == tag
  }

  class FieldIter {
    const ty: MessageType
    var pos: nat
    var requiredFieldIndex: nat

    predicate Valid()
      reads this
    {
      && TagsOk(ty)
      && (pos < |ty.fields| || pos == 0 == |ty.fields|)
      && requiredFieldIndex == RequiredBefore(ty, pos)
    }

    /** pb_field_iter_begin. */
    constructor (ty: MessageType)
      requires TagsOk(ty)
      ensures Valid() && this.ty == ty && pos == 0
    {
      this.ty := ty;
      pos, requiredFieldIndex := 0, 0;
    }

    /** pb_field_iter_next: one field on, or round to the first, which it tells. */
    method Next() returns (more: bool)
      requires Valid()
      modifies this
      ensures Valid()
      ensures more <==> old(pos) + 1 < |ty.fields|
      ensures pos == if more then old(pos) + 1 else 0
    {
      if TagAt(ty, pos) == 0 {
        return false;
      }
      var wasRequired := ty.fields[pos].rule.Required?;
      pos := pos + 1;
      if TagAt(ty, pos) == 0 {
        pos, requiredFieldIndex := 0, 0;
        return false;
      }
      if wasRequired {
        requiredFieldIndex := requiredFieldIndex + 1;
      }
      return true;
    }

    /**
     * pb_field_iter_find: wherever it stands, it finds the field of that tag if there is one, and else stays. Of a type
     * without fields it finds the terminator.
     */
    method Find(tag: nat) returns (found: bool)
      requires Valid()
      modifies this
      ensures Valid()
      ensures found <==> Knows(ty, tag) || (ty.fields == [] && tag == 0)
      ensures if found then TagAt(ty, pos) == tag else pos == old(pos)
    {
      var start := pos;
      ghost var wrapped := false;
      while true
        invariant Valid()
        invariant if wrapped then pos < start else start <= pos
        invariant forall i :: start <= i < |ty.fields| && (wrapped || i < pos) ==> ty.fields[i].tag != tag
        invariant forall i :: 0 <= i < pos && wrapped ==> ty.fields[i].tag != tag
        decreases !wrapped, |ty.fields| - pos
      {
        if TagAt(ty, pos) == tag {
          return true;
        }
        var more := Next();
        wrapped := wrapped || !more;
        if pos == start {
          return false;
        }
      }
    }
  }

  // ------------------------------------------------------------------ the required fields seen

  const MAX_REQUIRED_FIELDS: nat := 64

  /** A word of 32 flags, the first one in its lowest bit. */
  function Word(flags: seq<bool>): (r: nat)
    ensures r < Pow2(|flags|)
  {
    if flags == [] then 0 else (if flags[0] then 1 else 0) + 2 * Word(flags[1..])
  }

  lemma {:induction false} OrSetsFlag(flags: seq<bool>, i: nat)
    requires i < |flags|
    ensures Or(Word(flags), Pow2(i)) == Word(flags[i := true])
  {
    var after := flags[i := true];
    if i == 0 {
      assert after[1..] == flags[1..];
      OrOne(Word(flags));
    } else {
      assert after[1..] == flags[1..][i - 1 := true];
      OrSetsFlag(flags[1..], i - 1);
      assert Pow2(i) == 2 * Pow2(i - 1);
      assert Word(flags) / 2 == Word(flags[1..]);
      if Word(flags) == 0 {
        assert Or(Word(flags[1..]), Pow2(i - 1)) == Pow2(i - 1);
      }
    }
  }

  lemma OrOne(a: nat)
    ensures Or(a, 1) == a / 2 * 2 + 1
  {
    assert Or(a / 2, 0) == a / 2;
  }

  /** allbits >> (32 - n) is what a word with exactly its first `n` flags set looks like. */
  lemma {:induction false} LowBitsSet(flags: seq<bool>, n: nat)
    requires n <= |flags|
    ensures Word(flags) == Pow2(n) - 1 <==> forall i :: 0 <= i < |flags| ==> flags[i] == (i < n)
  {
    if flags != [] {
      var rest := flags[1..];
      LowBitsSet(rest, if n == 0 then 0 else n - 1);
      assert forall i :: 0 < i < |flags| ==> flags[i] == rest[i - 1];
      if forall i :: 0 <= i < |flags| ==> flags[i] == (i < n) {
        assert forall i :: 0 <= i < |rest| ==> rest[i] == flags[i + 1];
      }
    }
  }

  /** The two words of fields_seen. */
  ghost predicate Holds(words: array<nat>, flags: seq<bool>)
    reads words
  {
    words.Length == 2 && |flags| == MAX_REQUIRED_FIELDS && words[0] == Word(flags[..32]) && words[1] == Word(flags[32..])
  }

  /** Setting the bit of one required field. */
  method Mark(words: array<nat>, index: nat, ghost flags: seq<bool>)
    requires Holds(words, flags) && index < MAX_REQUIRED_FIELDS
    modifies words
    ensures Holds(words, flags[index := true])
  {
    hide Or, Word, Pow2;
    words[index / 32] := Or(words[index / 32], Pow2(index % 32));
    ghost var after := flags[index := true];
    if index < 32 {
      OrSetsFlag(flags[..32], index);
      assert after[..32] == flags[..32][index := true] && after[32..] == flags[32..];
    } else {
      OrSetsFlag(flags[32..], index - 32);
      assert after[32..] == flags[32..][index - 32 := true] && after[..32] == flags[..32];
    }
  }

  /** Comparing whole words, and then the remaining bits. */
  method AllMarked(words: array<nat>, count: nat, ghost flags: seq<bool>) returns (ok: bool)
    requires Holds(words, flags) && count <= MAX_REQUIRED_FIELDS
    requires forall r :: count <= r < MAX_REQUIRED_FIELDS ==> !flags[r]
    ensures ok <==> forall r :: 0 <= r < count ==> flags[r]
  {
    hide Word, Pow2, ShiftRight;
    AllBits();
    var low, high := flags[..32], flags[32..];
    LowBitsSet(low, if count < 32 then count else 32);
    LowBitsSet(high, if count < 32 then 0 else count - 32);
    assert forall r :: 0 <= r < 32 ==> flags[r] == low[r];
    assert forall r :: 32 <= r < 64 ==> flags[r] == high[r - 32];
    var i := 0;
    while i < count / 32
      invariant 0 <= i <= count / 32
      invariant forall r :: 0 <= r < 32 * i ==> flags[r]
    {
      if words[i] != 0xFFFF_FFFF {
        return false;
      }
      i := i + 1;
    }
    if count % 32 != 0 {
      ShiftedOnes(32, 32 - count % 32);
      if words[count / 32] != ShiftRight(0xFFFF_FFFF, 32 - count % 32) {
        return false;
      }
    }
    return true;
  }

  lemma {:induction false} ShiftedOnes(n: nat, k: nat)
    requires k <= n
    ensures ShiftRight(Pow2(n) - 1, k) == Pow2(n - k) - 1
  {
    if k > 0 {
      assert (Pow2(n) - 1) / 2 == Pow2(n - 1) - 1;
      ShiftedOnes(n - 1, k - 1);
    }
  }

  lemma AllBits()
    ensures Pow2(32) - 1 == 0xFFFF_FFFF
  {
    Powers();
    assert Pow2(30) == 4 * Pow2(28);
  }

  // ------------------------------------------------------------------ which required fields they stand for

  lemma {:induction false} RequiredGrows(ty: MessageType, i: nat, j: nat)
    requires i <= j <= |ty.fields|
    ensures RequiredBefore(ty, i) <= RequiredBefore(ty, j)
  {
    if i < j {
      RequiredGrows(ty, i, j - 1);
    }
  }

  /** No two required fields share a bit. */
  lemma RequiredDiffer(ty: MessageType, i: nat, j: nat)
    requires i < j < |ty.fields| && ty.fields[i].rule.Required?
    ensures RequiredBefore(ty, i) < RequiredBefore(ty, j)
  {
    RequiredGrows(ty, i + 1, j);
  }

  /** Every bit below the number of required fields has its field. */
  lemma {:induction false} RequiredAt(ty: MessageType, n: nat, r: nat) returns (i: nat)
    requires n <= |ty.fields| && r < RequiredBefore(ty, n)
    ensures i < n && ty.fields[i].rule.Required? && RequiredBefore(ty, i) == r
  {
    if r < RequiredBefore(ty, n - 1) {
      i := RequiredAt(ty, n - 1, r);
    } else {
      i := n - 1;
    }
  }

  /** Every required field among the first 64 has been seen. */
  predicate AllSeen(ty: MessageType, seen: set<nat>)
  {
    forall i :: 0 <= i < |ty.fields| && ty.fields[i].rule.Required? && RequiredBefore(ty, i) < MAX_REQUIRED_FIELDS ==> i in seen
  }

  /** The bits that are set are those of the required fields seen. */
  ghost predicate Flagged(ty: MessageType, seen: set<nat>, flags: seq<bool>)
  {
    && |flags| == MAX_REQUIRED_FIELDS
    && (forall i :: 0 <= i < |ty.fields| && ty.fields[i].rule.Required? && RequiredBefore(ty, i) < MAX_REQUIRED_FIELDS ==>
          flags[RequiredBefore(ty, i)] == (i in seen))
    && (forall r :: RequiredBefore(ty, |ty.fields|) <= r < MAX_REQUIRED_FIELDS ==> !flags[r])
  }

  lemma FlaggedOneMore(ty: MessageType, seen: set<nat>, flags: seq<bool>, i: nat)
    requires Flagged(ty, seen, flags) && i < |ty.fields|
    ensures !ty.fields[i].rule.Required? || RequiredBefore(ty, i) >= MAX_REQUIRED_FIELDS ==> Flagged(ty, seen + {i}, flags)
    ensures ty.fields[i].rule.Required? && RequiredBefore(ty, i) < MAX_REQUIRED_FIELDS ==>
      Flagged(ty, seen + {i}, flags[RequiredBefore(ty, i) := true])
  {
    if ty.fields[i].rule.Required? && RequiredBefore(ty, i) < MAX_REQUIRED_FIELDS {
      var after := flags[RequiredBefore(ty, i) := true];
      RequiredGrows(ty, i + 1, |ty.fields|);
      forall j | 0 <= j < |ty.fields| && ty.fields[j].rule.Required? && RequiredBefore(ty, j) < MAX_REQUIRED_FIELDS
        ensures after[RequiredBefore(ty, j)] == (j in seen + {i})
      {
        if i < j {
          RequiredDiffer(ty, i, j);
        } else if j < i {
          RequiredDiffer(ty, j, i);
        }
      }
    }
  }

  /** The bitmap check asks for exactly the first 64 required fields. */
  lemma FlagsTell(ty: MessageType, seen: set<nat>, flags: seq<bool>)
    requires Flagged(ty, seen, flags)
    ensures AllSeen(ty, seen) <==> forall r :: 0 <= r < MAX_REQUIRED_FIELDS && r < RequiredBefore(ty, |ty.fields|) ==> flags[r]
  {
    if AllSeen(ty, seen) {
      forall r | 0 <= r < MAX_REQUIRED_FIELDS && r < RequiredBefore(ty, |ty.fields|) ensures flags[r] {
        var i := RequiredAt(ty, |ty.fields|, r);
      }
    }
    if forall r :: 0 <= r < MAX_REQUIRED_FIELDS && r < RequiredBefore(ty, |ty.fields|) ==> flags[r] {
      forall i | 0 <= i < |ty.fields| && ty.fields[i].rule.Required? && RequiredBefore(ty, i) < MAX_REQUIRED_FIELDS ensures i in seen {
        RequiredGrows(ty, i + 1, |ty.fields|);
        assert flags[RequiredBefore(ty, i)];
      }
    }
  }

  /** The check at the end of pb_decode_noinit: the fields are counted by going on to the last one. */
  method RequiredSeen(iter: FieldIter, words: array<nat>, ghost seen: set<nat>, ghost flags: seq<bool>) returns (ok: bool)
    requires iter.Valid() && Holds(words, flags) && Flagged(iter.ty, seen, flags)
    modifies iter
    ensures ok <==> AllSeen(iter.ty, seen)
  {
    hide Word, AllSeen, Flagged;
    ghost var n := |iter.ty.fields|;
    var count: nat, lastRequired := iter.requiredFieldIndex, TypeAtIsRequired(iter.ty, iter.pos);
    ghost var last: nat := iter.pos;
    var more := iter.Next();
    while more
      invariant iter.Valid() && Holds(words, flags) && (more ==> iter.pos == last + 1) && (last < n || last == 0 == n)
      invariant count == RequiredBefore(iter.ty, last) && lastRequired == TypeAtIsRequired(iter.ty, last)
      invariant !more ==> iter.pos == 0 && last + 1 >= n
      decreases more, n - last
    {
      count, lastRequired := iter.requiredFieldIndex, TypeAtIsRequired(iter.ty, iter.pos);
      last := iter.pos;
      more := iter.Next();
    }
    if lastRequired && TagAt(iter.ty, iter.pos) != 0 {
      count := count + 1;
    }
    assert count == RequiredBefore(iter.ty, n);
    if count > MAX_REQUIRED_FIELDS {
      count := MAX_REQUIRED_FIELDS;
    }
    FlagsEnd(iter.ty, seen, flags);
    FlagsTell(iter.ty, seen, flags);
    if count == 0 {
      return true;
    }
    ok := AllMarked(words, count, flags);
  }

  /** PB_HTYPE of a descriptor; the type of the terminator is zero, which reads as required. */
  predicate TypeAtIsRequired(ty: MessageType, i: nat)
  {
    i < |ty.fields| ==> ty.fields[i].rule.Required?
  }

  lemma FlagsEnd(ty: MessageType, seen: set<nat>, flags: seq<bool>)
    requires Flagged(ty, seen, flags)
    ensures forall r :: RequiredBefore(ty, |ty.fields|) <= r < MAX_REQUIRED_FIELDS ==> !flags[r]
  {
  }
}
