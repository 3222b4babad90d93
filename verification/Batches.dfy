/** WriteBatch: operations as bytes (db/write_batch.cc). */
module Batches {
  import opened Bytes
  import opened InternalKeys
  import opened Coding
  import opened Engine

  const BATCH_HEADER: nat := 12

  /** Keys and values whose lengths fit the length prefix. */
  predicate Fits(op: Op)
  {
    |op.key| < TWO_32 && (op.Put? ==> |op.value| < TWO_32)
  }

  function OpBytes(op: Op): (r: Slice)
    ensures r != []
  {
    match op
    case Put(k, v) => [1] + LengthPrefixed(k) + LengthPrefixed(v)
    case Delete(k) => [0] + LengthPrefixed(k)
  }

  function OpsBytes(ops: seq<Op>): Slice
  {
    if ops == [] then [] else OpsBytes(ops[..|ops| - 1]) + OpBytes(ops[|ops| - 1])
  }

  /** The contents of a batch: sequence number, count, operations. */
  function BatchBytes(sequence: nat, ops: seq<Op>): Slice
  {
    Fixed(sequence, 8) + Fixed(|ops|, 4) + OpsBytes(ops)
  }

  // ------------------------------------------------------------------ reading

  /** One operation at the front of the input, or None if it is malformed. */
  function ReadOp(input: Slice): (r: Option<(Op, Slice)>)
    requires input != []
    ensures r.Some? ==> |r.value.1| < |input|
  {
    if input[0] == 1 then
      match Prefixed(input[1..])
      case None => None
      case Some((key, rest)) =>
        (match Prefixed(rest)
         case None => None
         case Some((value, rest')) => PrefixedShrinks(input[1..]); PrefixedShrinks(rest); Some((Put(key, value), rest')))
    else if input[0] == 0 then
      match Prefixed(input[1..])
      case None => None
      case Some((key, rest)) => PrefixedShrinks(input[1..]); Some((Delete(key), rest))
    else None
  }

  lemma PrefixedShrinks(input: Slice)
    ensures Prefixed(input).Some? ==> |Prefixed(input).value.1| <= |input|
  {
  }

  /** The operations up to the first malformed one, and whether there was none. */
  function ReadOps(input: Slice): (seq<Op>, bool)
    decreases |input|
  {
    if input == [] then ([], true) else
      match ReadOp(input)
      case None => ([], false)
      case Some((op, rest)) => var r := ReadOps(rest); ([op] + r.0, r.1)
  }

  lemma ReadsOp(op: Op, suffix: Slice)
    requires Fits(op)
    ensures ReadOp(OpBytes(op) + suffix) == Some((op, suffix))
  {
    hide LengthPrefixed, Prefixed;
    var s := OpBytes(op) + suffix;
    match op
    case Put(k, v) =>
      assert s[1..] == LengthPrefixed(k) + (LengthPrefixed(v) + suffix);
      PrefixedRoundTrip(k, LengthPrefixed(v) + suffix);
      PrefixedRoundTrip(v, suffix);
    case Delete(k) =>
      assert s[1..] == LengthPrefixed(k) + suffix;
      PrefixedRoundTrip(k, suffix);
  }

  lemma {:induction false} ReadsOps(ops: seq<Op>, suffix: Slice)
    requires forall op :: op in ops ==> Fits(op)
    ensures ReadOps(OpsBytes(ops) + suffix) == (ops + ReadOps(suffix).0, ReadOps(suffix).1)
  {
    hide ReadOp, OpBytes;
    if ops == [] {
      assert OpsBytes(ops) + suffix == suffix && ops + ReadOps(suffix).0 == ReadOps(suffix).0;
    } else {
      var n := |ops| - 1;
      assert ops[n] in ops && forall op :: op in ops[..n] ==> op in ops;
      var rest := OpBytes(ops[n]) + suffix;
      assert OpsBytes(ops) + suffix == OpsBytes(ops[..n]) + rest;
      ReadsOps(ops[..n], rest);
      ReadsOp(ops[n], suffix);
      var more := ReadOps(suffix).0;
      assert ops[..n] + ([ops[n]] + more) == ops + more;
    }
  }

  /** Iterate gives back the operations that were put in. */
  lemma BatchRoundTrip(sequence: nat, ops: seq<Op>)
    requires sequence < TWO_64 && |ops| < TWO_32 && forall op :: op in ops ==> Fits(op)
    ensures var rep := BatchBytes(sequence, ops);
            && |rep| >= BATCH_HEADER && ReadOps(rep[BATCH_HEADER..]) == (ops, true)
            && FixedValue(rep[..8]) == sequence && FixedValue(rep[8..12]) == |ops|
  {
    hide Fixed, FixedValue, OpsBytes, ReadOps;
    var rep := BatchBytes(sequence, ops);
    assert rep[BATCH_HEADER..] == OpsBytes(ops) + [] && rep[..8] == Fixed(sequence, 8) && rep[8..12] == Fixed(|ops|, 4);
    ReadsOps(ops, []);
    NoOps();
    assert ops + [] == ops;
    FixedPowers();
    FixedRoundTrip(sequence, 8);
    FixedRoundTrip(|ops|, 4);
  }

  lemma NoOps()
    ensures ReadOps([]) == ([], true)
  {
  }

  /** Batches one after the other. */
  lemma {:induction false} OpsBytesAppend(a: seq<Op>, b: seq<Op>)
    ensures OpsBytes(a + b) == OpsBytes(a) + OpsBytes(b)
  {
    hide OpBytes;
    if b == [] {
      assert a + b == a;
    } else {
      var n := |b| - 1;
      assert (a + b)[..|a + b| - 1] == a + b[..n];
      OpsBytesAppend(a, b[..n]);
      assert OpsBytes(a) + (OpsBytes(b[..n]) + OpBytes(b[n])) == OpsBytes(a) + OpsBytes(b[..n]) + OpBytes(b[n]);
    }
  }

  // ------------------------------------------------------------------ the class

  datatype Status = Ok | Corruption

  class WriteBatch {
    var rep: Slice
    ghost var sequence: nat
    ghost var ops: seq<Op>

    ghost predicate Valid()
      reads this
    {
      && sequence < TWO_64 && |ops| < TWO_32 && (forall op :: op in ops ==> Fits(op))
      && rep == BatchBytes(sequence, ops)
    }

    constructor ()
      ensures Valid() && ops == [] && sequence == 0
    {
      rep := seq(BATCH_HEADER, _ => 0);
      sequence, ops := 0, [];
      new;
      assert Fixed(0, 8) == [0, 0, 0, 0, 0, 0, 0, 0] && Fixed(0, 4) == [0, 0, 0, 0];
    }

    method Count() returns (n: nat)
      requires Valid()
      ensures n == |ops|
    {
      BatchRoundTrip(sequence, ops);
      n := FixedValue(rep[8..12]);
    }

    /** The header and the operations of a valid batch. */
    lemma Parts()
      requires Valid()
      ensures rep[..8] == Fixed(sequence, 8) && rep[8..12] == Fixed(|ops|, 4) && rep[12..] == OpsBytes(ops)
    {
    }

    method SetSequence(s: nat)
      requires Valid() && s < TWO_64
      modifies this
      ensures Valid() && sequence == s && ops == old(ops)
    {
      Parts();
      rep := Fixed(s, 8) + rep[8..];
      sequence := s;
    }

    method Put(key: Slice, value: Slice)
      requires Valid() && |ops| + 1 < TWO_32 && |key| < TWO_32 && |value| < TWO_32
      modifies this
      ensures Valid() && ops == old(ops) + [Op.Put(key, value)] && sequence == old(sequence)
    {
      AddOp([1] + LengthPrefixed(key) + LengthPrefixed(value), Op.Put(key, value));
    }

    method Delete(key: Slice)
      requires Valid() && |ops| + 1 < TWO_32 && |key| < TWO_32
      modifies this
      ensures Valid() && ops == old(ops) + [Op.Delete(key)] && sequence == old(sequence)
    {
      AddOp([0] + LengthPrefixed(key), Op.Delete(key));
    }

    /** The count goes up by one and the record follows. */
    method AddOp(bytes: Slice, ghost op: Op)
      requires Valid() && |ops| + 1 < TWO_32 && Fits(op) && bytes == OpBytes(op)
      modifies this
      ensures Valid() && ops == old(ops) + [op] && sequence == old(sequence)
    {
      hide Fixed, OpBytes;
      var n := Count();
      Parts();
      assert (ops + [op])[..|ops|] == ops;
      rep := rep[..8] + Fixed(n + 1, 4) + rep[12..] + bytes;
      ops := ops + [op];
      assert rep == Fixed(sequence, 8) + Fixed(|ops|, 4) + (OpsBytes(old(ops)) + bytes);
    }

    /** WriteBatchInternal::Append. */
    method Append(src: WriteBatch)
      requires Valid() && src.Valid() && src != this && |ops| + |src.ops| < TWO_32
      modifies this
      ensures Valid() && ops == old(ops) + src.ops && sequence == old(sequence)
    {
      hide Fixed, OpsBytes;
      var n := Count();
      var m := src.Count();
      Parts();
      src.Parts();
      OpsBytesAppend(ops, src.ops);
      rep := rep[..8] + Fixed(n + m, 4) + rep[12..] + src.rep[12..];
      ops := ops + src.ops;
      assert rep == Fixed(sequence, 8) + Fixed(|ops|, 4) + (OpsBytes(old(ops)) + OpsBytes(src.ops));
    }

    /** Iterate: the operations handed to the handler, also when the batch turns out to be corrupted. */
    method Iterate() returns (status: Status, handled: seq<Op>)
      ensures |rep| < BATCH_HEADER ==> status == Corruption && handled == []
      ensures |rep| >= BATCH_HEADER ==>
                && handled == ReadOps(rep[BATCH_HEADER..]).0
                && (status == Ok <==> ReadOps(rep[BATCH_HEADER..]).1 && |handled| == FixedValue(rep[8..12]))
    {
      handled := [];
      if |rep| < BATCH_HEADER { return Corruption, []; }
      var input := rep[BATCH_HEADER..];
      ghost var all := ReadOps(input);
      while input != []
        invariant handled + ReadOps(input).0 == all.0 && ReadOps(input).1 == all.1
        decreases |input|
      {
        var r := GetOp(input);
        if r.None? { return Corruption, handled; }
        ghost var rest := ReadOps(r.value.1);
        assert handled + ([r.value.0] + rest.0) == (handled + [r.value.0]) + rest.0;
        handled := handled + [r.value.0];
        input := r.value.1;
      }
      status := if |handled| == FixedValue(rep[8..12]) then Ok else Corruption;
    }
  }

  /** The switch over the tag. */
  method GetOp(input: Slice) returns (r: Option<(Op, Slice)>)
    requires input != []
    ensures r == ReadOp(input)
  {
    if input[0] == 1 {
      var key := GetLengthPrefixedSlice(input[1..]);
      if key.None? { return None; }
      var value := GetLengthPrefixedSlice(key.value.1);
      if value.None? { return None; }
      return Some((Put(key.value.0, value.value.0), value.value.1));
    } else if input[0] == 0 {
      var key := GetLengthPrefixedSlice(input[1..]);
      if key.None? { return None; }
      return Some((Delete(key.value.0), key.value.1));
    }
    r := None;
  }

  /** WriteBatchInternal::InsertInto on a well-formed batch: consecutive sequence numbers from the batch's own on. */
  method InsertInto(batch: WriteBatch) returns (added: seq<Entry>)
    requires batch.Valid()
    ensures added == Numbering(batch.ops, batch.sequence)
  {
    hide BatchBytes, ReadOps, FixedValue, Numbering;
    BatchRoundTrip(batch.sequence, batch.ops);
    var sequence := FixedValue(batch.rep[..8]);
    var status, handled := batch.Iterate();
    added := [];
    NumberingStep(handled, batch.sequence, 0);
    for i := 0 to |handled|
      invariant added == Numbering(handled[..i], batch.sequence)
    {
      NumberingStep(handled, batch.sequence, i);
      added := added + [EntryOf(handled[i], sequence + i)];
    }
    assert handled[..|handled|] == handled;
  }

  lemma NumberingStep(ops: seq<Op>, first: nat, i: nat)
    requires i <= |ops|
    ensures Numbering(ops[..0], first) == []
    ensures i < |ops| ==> Numbering(ops[..i + 1], first) == Numbering(ops[..i], first) + [EntryOf(ops[i], first + i)]
  {
    if i < |ops| { assert ops[..i + 1][..i] == ops[..i]; }
  }
}
