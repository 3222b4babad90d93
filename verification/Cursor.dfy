/** The user-visible cursor (db/db_iter.cc) over a cursor on internal keys. */
module Cursor {
  import opened Bytes
  import opened InternalKeys

  // ------------------------------------------------------------------ what a reader should see

  /** Entry `i` is the newest version of its user key at `sequence`, and not a deletion. */
  predicate Shown(entries: seq<Entry>, sequence: nat, i: nat)
    requires i < |entries|
  {
    && entries[i].seqno <= sequence && entries[i].kind.Value?
    && forall j :: 0 <= j < i && entries[j].key == entries[i].key ==> entries[j].seqno > sequence
  }

  /** The rows among the first `n` entries: one for each live user key. */
  function Rows(entries: seq<Entry>, sequence: nat, n: nat): (r: seq<Entry>)
    requires n <= |entries|
  {
    if n == 0 then [] else
      Rows(entries, sequence, n - 1) + if Shown(entries, sequence, n - 1) then [entries[n - 1]] else []
  }

  /** The table the cursor walks over. */
  function Table(entries: seq<Entry>, sequence: nat): seq<Entry>
  {
    Rows(entries, sequence, |entries|)
  }

  lemma {:induction false} RowsGrow(entries: seq<Entry>, sequence: nat, m: nat, n: nat)
    requires m <= n <= |entries|
    ensures Rows(entries, sequence, m) <= Rows(entries, sequence, n)
    ensures (forall i :: m <= i < n ==> !Shown(entries, sequence, i)) ==> Rows(entries, sequence, m) == Rows(entries, sequence, n)
    decreases n
  {
    if m < n {
      RowsGrow(entries, sequence, m, n - 1);
    }
  }

  /** The row of a shown entry. */
  lemma RowAt(entries: seq<Entry>, sequence: nat, i: nat)
    requires i < |entries| && Shown(entries, sequence, i)
    ensures |Rows(entries, sequence, i)| < |Table(entries, sequence)|
    ensures Table(entries, sequence)[|Rows(entries, sequence, i)|] == entries[i]
  {
    RowsGrow(entries, sequence, i + 1, |entries|);
  }

  /** No row lies strictly between two neighbouring shown entries. */
  lemma NextRow(entries: seq<Entry>, sequence: nat, i: nat, j: nat)
    requires i < j <= |entries| && Shown(entries, sequence, i)
    requires forall k :: i < k < j ==> !Shown(entries, sequence, k)
    ensures |Rows(entries, sequence, j)| == |Rows(entries, sequence, i)| + 1
  {
    RowsGrow(entries, sequence, i + 1, j);
  }

  lemma {:induction false} RowIsShown(entries: seq<Entry>, sequence: nat, n: nat, r: nat) returns (i: nat)
    requires n <= |entries| && r < |Rows(entries, sequence, n)|
    ensures i < n && Shown(entries, sequence, i) && Rows(entries, sequence, n)[r] == entries[i]
    ensures |Rows(entries, sequence, i)| == r
    decreases n
  {
    if r < |Rows(entries, sequence, n - 1)| {
      i := RowIsShown(entries, sequence, n - 1, r);
    } else {
      i := n - 1;
    }
  }

  lemma KeysOrdered(entries: seq<Entry>, i: nat, j: nat)
    requires Sorted(entries) && i <= j < |entries|
    ensures !Less(entries[j].key, entries[i].key)
  {
    LessIrreflexive(entries[i].key);
    if i < j {
      assert ILess(entries[i].Ikey(), entries[j].Ikey());
      Order(entries[i].key, entries[j].key, entries[i].key);
    }
  }

  lemma ShownIncrease(entries: seq<Entry>, sequence: nat, i: nat, j: nat)
    requires Sorted(entries) && i < j < |entries| && Shown(entries, sequence, i) && Shown(entries, sequence, j)
    ensures Less(entries[i].key, entries[j].key)
  {
    KeysOrdered(entries, i, j);
    LessTotal(entries[i].key, entries[j].key);
  }

  /** Each live user key has one row, and the rows are in key order. */
  lemma RowsIncrease(entries: seq<Entry>, sequence: nat, a: nat, b: nat)
    requires Sorted(entries) && a < b < |Table(entries, sequence)|
    ensures Less(Table(entries, sequence)[a].key, Table(entries, sequence)[b].key)
  {
    var n := |entries|;
    var i := RowIsShown(entries, sequence, n, a);
    var j := RowIsShown(entries, sequence, n, b);
    if j <= i { RowsGrow(entries, sequence, j, i); }
    ShownIncrease(entries, sequence, i, j);
  }

  /** The table has a row for `key` exactly when a read of `key` finds a value, and it holds that value. */
  lemma RowsAreReads(entries: seq<Entry>, sequence: nat, key: Slice, value: Slice)
    requires Sorted(entries)
    ensures Outcome(Find(entries, key, sequence)) == Some(value) <==>
            exists r :: 0 <= r < |Table(entries, sequence)| && Table(entries, sequence)[r].key == key && Table(entries, sequence)[r].value == value
  {
    var table := Table(entries, sequence);
    var target := LookupKey(key, sequence);
    var at := SeekFrom(entries, target, 0);
    if Outcome(Find(entries, key, sequence)) == Some(value) {
      LandsOnVisible(entries, sequence, key, at);
      RowAt(entries, sequence, at);
      assert table[|Rows(entries, sequence, at)|] == entries[at];
    }
    if r :| 0 <= r < |table| && table[r].key == key && table[r].value == value {
      var i := RowIsShown(entries, sequence, |entries|, r);
      LandsOnShown(entries, sequence, i, at);
    }
  }

  /** An entry Seek lands on is visible, and the entries of its key before it are not. */
  lemma LandsOnVisible(entries: seq<Entry>, sequence: nat, key: Slice, at: nat)
    requires Sorted(entries) && at < |entries| && entries[at].key == key
    requires forall j :: 0 <= j < at ==> ILess(entries[j].Ikey(), LookupKey(key, sequence))
    requires !ILess(entries[at].Ikey(), LookupKey(key, sequence))
    ensures entries[at].seqno <= sequence
    ensures forall j :: 0 <= j < at && entries[j].key == key ==> entries[j].seqno > sequence
  {
    LessIrreflexive(key);
  }

  lemma LandsOnShown(entries: seq<Entry>, sequence: nat, i: nat, at: nat)
    requires Sorted(entries) && i < |entries| && Shown(entries, sequence, i) && at <= |entries|
    requires forall j :: 0 <= j < at ==> ILess(entries[j].Ikey(), LookupKey(entries[i].key, sequence))
    requires at < |entries| ==> !ILess(entries[at].Ikey(), LookupKey(entries[i].key, sequence))
    ensures at == i
  {
    var key := entries[i].key;
    LessIrreflexive(key);
    if at < i {
      KeysOrdered(entries, at, i);
      LessTotal(entries[at].key, key);
    }
  }

  // ------------------------------------------------------------------ the cursor underneath

  /** A cursor over internal keys. Off either end it has no position. */
  class InternalIterator {
    const entries: seq<Entry>
    var at: nat

    constructor (entries: seq<Entry>)
      ensures this.entries == entries && at == |entries|
    {
      this.entries := entries;
      at := |entries|;
    }

    predicate Valid() reads this { at < |entries| }

    function Item(): Entry
      requires Valid()
      reads this
    {
      entries[at]
    }

    method SeekToFirst()
      modifies this
      ensures at == 0
    {
      at := 0;
    }

    method SeekToLast()
      modifies this
      ensures at == if entries == [] then 0 else |entries| - 1
    {
      at := if entries == [] then 0 else |entries| - 1;
    }

    method Seek(target: IKey)
      modifies this
      ensures at == SeekFrom(entries, target, 0)
    {
      at := SeekFrom(entries, target, 0);
    }

    method Next()
      requires Valid()
      modifies this
      ensures at == old(at) + 1
    {
      at := at + 1;
    }

    method Prev()
      requires Valid()
      modifies this
      ensures at == if old(at) == 0 then |entries| else old(at) - 1
    {
      at := if at == 0 then |entries| else at - 1;
    }
  }

  /** Entries from `i` on whose older versions come before `i` are not shown, unless those are too new. */
  ghost predicate SkipsRight(entries: seq<Entry>, sequence: nat, i: nat, skipping: bool, skip: Slice)
    requires i <= |entries|
  {
    && (forall j, k :: 0 <= j < i <= k < |entries| && entries[j].key == entries[k].key && entries[j].seqno <= sequence ==>
          skipping && !Less(skip, entries[k].key))
    && (skipping ==> forall k :: i <= k < |entries| && entries[k].seqno <= sequence ==> !Less(entries[k].key, skip))
  }

  /** The next row from `i` on, of a user key after `skip`. */
  predicate Acceptable(entries: seq<Entry>, sequence: nat, i: nat, skipping: bool, skip: Slice)
    requires i < |entries|
  {
    Shown(entries, sequence, i) && (skipping ==> Less(skip, entries[i].key))
  }

  ghost predicate FirstAcceptable(entries: seq<Entry>, sequence: nat, from: nat, skipping: bool, skip: Slice, r: nat)
  {
    && from <= r <= |entries|
    && (forall k :: from <= k < r ==> !Acceptable(entries, sequence, k, skipping, skip))
    && (r < |entries| ==> Acceptable(entries, sequence, r, skipping, skip))
  }

  /** The last row up to `upTo` (exclusive). */
  ghost predicate LastShown(entries: seq<Entry>, sequence: nat, upTo: nat, r: nat)
    requires upTo <= |entries|
  {
    r < upTo && Shown(entries, sequence, r) && forall k :: r < k < upTo ==> !Shown(entries, sequence, k)
  }

  datatype Direction = Forward | Reverse

  class DBIter {
    const iter: InternalIterator
    const sequence: nat
    var savedKey: Slice
    var savedValue: Slice
    var direction: Direction
    var valid: bool
    ghost var current: nat

    ghost predicate Valid()
      reads this, iter
    {
      valid ==>
        && current < |iter.entries| && Shown(iter.entries, sequence, current)
        && (direction.Forward? ==> iter.at == current)
        && (direction.Reverse? ==>
              && savedKey == iter.entries[current].key && savedValue == iter.entries[current].value
              && Behind(iter.entries, sequence, iter.at, current))
    }

    /** The row the cursor stands on. */
    ghost function Position(): Option<nat>
      requires Valid()
      reads this, iter
    {
      if valid then Some(|Rows(iter.entries, sequence, current)|) else None
    }

    constructor (iter: InternalIterator, sequence: nat)
      ensures this.iter == iter && this.sequence == sequence && Valid() && Position() == None
    {
      this.iter, this.sequence := iter, sequence;
      savedKey, savedValue, direction, valid, current := [], [], Forward, false, 0;
    }

    method Key() returns (key: Slice)
      requires Valid() && Position().Some? && Sorted(iter.entries)
      ensures Position().value < |Table(iter.entries, sequence)| && key == Table(iter.entries, sequence)[Position().value].key
    {
      RowAt(iter.entries, sequence, current);
      key := if direction.Forward? then iter.entries[iter.at].key else savedKey;
    }

    method Value() returns (value: Slice)
      requires Valid() && Position().Some? && Sorted(iter.entries)
      ensures Position().value < |Table(iter.entries, sequence)| && value == Table(iter.entries, sequence)[Position().value].value
    {
      RowAt(iter.entries, sequence, current);
      value := if direction.Forward? then iter.entries[iter.at].value else savedValue;
    }

    method FindNextUserEntry(skipping: bool)
      requires Sorted(iter.entries) && iter.Valid() && direction.Forward?
      requires SkipsRight(iter.entries, sequence, iter.at, skipping, savedKey)
      modifies this, iter
      ensures Valid() && direction.Forward?
      ensures FirstAcceptable(iter.entries, sequence, old(iter.at), skipping, old(savedKey), iter.at)
      ensures valid == (iter.at < |iter.entries|)
    {
      hide Less, Sorted, Shown, Scanning, FirstAcceptable, SkipsRight;
      var skip := skipping;
      ghost var from, key0 := iter.at, savedKey;
      ScanningStarts(iter.entries, sequence, from, skipping, key0);
      while iter.Valid()
        invariant direction.Forward?
        invariant Scanning(iter.entries, sequence, from, skipping, key0, iter.at, skip, savedKey)
        decreases |iter.entries| - iter.at
      {
        var e := iter.entries[iter.at];
        if e.seqno <= sequence {
          if e.kind.Deletion? {
            DeletionHides(iter.entries, sequence, from, skipping, key0, iter.at, skip, savedKey);
            savedKey, skip := e.key, true;
            LessIrreflexive(e.key);
          } else if !(skip && !Less(savedKey, e.key)) {
            ScanStops(iter.entries, sequence, from, skipping, key0, iter.at, skip, savedKey);
            valid, current, savedKey := true, iter.at, [];
            return;
          }
        }
        PassOver(iter.entries, sequence, from, skipping, key0, iter.at, skip, savedKey);
        iter.Next();
      }
      NothingAccepted(iter.entries, sequence, from, skipping, key0, iter.at, skip, savedKey);
      savedKey := [];
      valid := false;
    }

    method Next()
      requires Valid() && Position().Some? && Sorted(iter.entries)
      modifies this, iter
      ensures Valid()
      ensures Position() == var p := old(Position().value) + 1; if p < |Table(iter.entries, sequence)| then Some(p) else None
    {
      hide Rows, Shown, Sorted, SkipsRight;
      ghost var row := current;
      if direction.Reverse? {
        TurnForward();
      } else {
        savedKey := iter.entries[iter.at].key;
      }
      SkipsRow(iter.entries, sequence, iter.at, row);
      ghost var from := iter.at;
      FindNextUserEntry(true);
      FirstAfter(iter.entries, sequence, from, row, iter.at);
    }

    /** Switching directions: from behind the row, step into the entries that follow. */
    method TurnForward()
      requires Valid() && valid && direction.Reverse?
      modifies this`direction, iter
      ensures direction.Forward? && iter.at == Start(iter.entries, old(iter.at))
    {
      direction := Forward;
      if !iter.Valid() {
        iter.SeekToFirst();
      } else {
        iter.Next();
      }
      assert iter.Valid();
    }

    method Seek(target: Slice)
      requires Valid() && Sorted(iter.entries)
      modifies this, iter
      ensures Valid() && RowFor(Table(iter.entries, sequence), target, Position())
    {
      direction, savedKey, savedValue := Forward, [], [];
      iter.Seek(LookupKey(target, sequence));
      ghost var from := iter.at;
      SeekSplits(iter.entries, sequence, target, from);
      if iter.Valid() {
        FindNextUserEntry(false);
      } else {
        valid := false;
      }
      FirstFrom(iter.entries, sequence, target, from, if iter.Valid() then iter.at else |iter.entries|);
    }

    method SeekToFirst()
      requires Valid() && Sorted(iter.entries)
      modifies this, iter
      ensures Valid()
      ensures Position() == if Table(iter.entries, sequence) == [] then None else Some(0)
    {
      direction, savedValue := Forward, [];
      iter.SeekToFirst();
      if iter.Valid() {
        FindNextUserEntry(false);
        FirstRow(iter.entries, sequence, old(savedKey), iter.at);
      } else {
        valid := false;
      }
    }

    method Prev()
      requires Valid() && Position().Some? && Sorted(iter.entries)
      modifies this, iter
      ensures Valid()
      ensures Position() == if old(Position().value) == 0 then None else Some(old(Position().value) - 1)
    {
      hide Rows, Shown, Sorted;
      ghost var row := current;
      if direction.Forward? {
        TurnBackward();
        if !iter.Valid() {
          valid, savedKey, savedValue := false, [], [];
          return;
        }
        direction := Reverse;
      } else {
        NothingBehind(iter.entries, sequence, iter.at, row);
      }
      ghost var upTo := Start(iter.entries, iter.at);
      FindPrevUserEntry();
      LastBefore(iter.entries, sequence, upTo, valid, current);
    }

    /** Switching directions: scan backwards until the user key changes. */
    method TurnBackward()
      requires Valid() && valid && direction.Forward? && Sorted(iter.entries)
      modifies this`savedKey, iter
      ensures Start(iter.entries, iter.at) <= old(iter.at)
      ensures Rows(iter.entries, sequence, Start(iter.entries, iter.at)) == Rows(iter.entries, sequence, old(iter.at))
      ensures !iter.Valid() ==> Rows(iter.entries, sequence, old(iter.at)) == []
    {
      ghost var row := current;
      savedKey := iter.entries[iter.at].key;
      while true
        invariant iter.at <= row && savedKey == iter.entries[row].key
        invariant forall k :: iter.at <= k < row ==> !Less(iter.entries[k].key, savedKey)
        decreases iter.at
      {
        iter.Prev();
        if !iter.Valid() || Less(iter.entries[iter.at].key, savedKey) { break; }
      }
      NothingBefore(iter.entries, sequence, Start(iter.entries, iter.at), row);
    }

    method FindPrevUserEntry()
      requires Sorted(iter.entries) && direction.Reverse?
      modifies this, iter
      ensures Valid()
      ensures var upTo := Start(iter.entries, old(iter.at));
              if valid then LastShown(iter.entries, sequence, upTo, current) else forall k :: 0 <= k < upTo ==> !Shown(iter.entries, sequence, k)
    {
      hide Scanned, LastShown, Shown, Sorted, Less;
      ghost var upTo := Start(iter.entries, iter.at);
      var kind := Deletion;
      ScanBegins(iter.entries, sequence, upTo, current);
      while iter.Valid()
        invariant direction.Reverse?
        invariant Scanned(iter.entries, sequence, upTo, Start(iter.entries, iter.at), kind, current)
        invariant kind.Value? ==> current < |iter.entries| && savedKey == iter.entries[current].key && savedValue == iter.entries[current].value
        decreases Start(iter.entries, iter.at)
      {
        var e := iter.entries[iter.at];
        Candidate(iter.entries, sequence, upTo, iter.at + 1, kind, current);
        if e.seqno <= sequence {
          if !kind.Deletion? && Less(e.key, savedKey) {
            BackStops(iter.entries, sequence, upTo, iter.at + 1, current);
            break;
          }
          BackVisible(iter.entries, sequence, upTo, iter.at, kind, current);
          kind := e.kind;
          if kind.Deletion? {
            savedKey, savedValue := [], [];
          } else {
            savedKey, savedValue, current := e.key, e.value, iter.at;
          }
        } else {
          BackInvisible(iter.entries, sequence, upTo, iter.at, kind, current);
        }
        iter.Prev();
      }
      Candidate(iter.entries, sequence, upTo, Start(iter.entries, iter.at), kind, current);
      if kind.Deletion? {
        valid, savedKey, savedValue, direction := false, [], [], Forward;
      } else {
        if !iter.Valid() { BackStops(iter.entries, sequence, upTo, 0, current); }
        valid := true;
      }
    }

    method SeekToLast()
      requires Valid() && Sorted(iter.entries)
      modifies this, iter
      ensures Valid()
      ensures Position() == if Table(iter.entries, sequence) == [] then None else Some(|Table(iter.entries, sequence)| - 1)
    {
      direction, savedValue := Reverse, [];
      iter.SeekToLast();
      FindPrevUserEntry();
      LastBefore(iter.entries, sequence, |iter.entries|, valid, current);
    }
  }

  /** The forward scan from `from` has reached `i`, and now looks for keys after `skip`. */
  ghost predicate Scanning(entries: seq<Entry>, sequence: nat, from: nat, skipping0: bool, skip0: Slice, i: nat, skipping: bool, skip: Slice)
  {
    && from <= i <= |entries| && SkipsRight(entries, sequence, i, skipping, skip)
    && (forall k :: from <= k < i ==> !Acceptable(entries, sequence, k, skipping0, skip0))
    && (forall k :: i <= k < |entries| ==>
          (Acceptable(entries, sequence, k, skipping0, skip0) <==> Acceptable(entries, sequence, k, skipping, skip)))
  }

  /** Where a backward scan that now stands at `at` has got to. */
  function Start(entries: seq<Entry>, at: nat): nat
  {
    if at < |entries| then at + 1 else 0
  }

  /** Behind the row `current`: at an entry of an earlier user key, with only too new entries between. */
  ghost predicate Behind(entries: seq<Entry>, sequence: nat, at: nat, current: nat)
    requires current < |entries|
  {
    && Start(entries, at) <= current
    && (at < |entries| ==> Less(entries[at].key, entries[current].key))
    && forall k :: Start(entries, at) <= k < current ==> entries[k].seqno > sequence
  }

  /** A visible deletion: from here on, its user key is the one to skip. */
  lemma DeletionHides(entries: seq<Entry>, sequence: nat, from: nat, skipping0: bool, skip0: Slice, i: nat, skipping: bool, skip: Slice)
    requires Sorted(entries) && i < |entries| && entries[i].seqno <= sequence && entries[i].kind.Deletion?
    requires Scanning(entries, sequence, from, skipping0, skip0, i, skipping, skip)
    ensures Scanning(entries, sequence, from, skipping0, skip0, i, true, entries[i].key)
  {
    forall k | i <= k < |entries|
      ensures !Less(entries[k].key, entries[i].key)
      ensures Acceptable(entries, sequence, k, true, entries[i].key) <==> Acceptable(entries, sequence, k, skipping, skip)
    {
      KeysOrdered(entries, i, k);
      Order(skip, entries[i].key, entries[k].key);
      LessTotal(entries[i].key, entries[k].key);
    }
    forall j, k | 0 <= j < i <= k < |entries| && entries[j].key == entries[k].key && entries[j].seqno <= sequence
      ensures !Less(entries[i].key, entries[k].key)
    {
      KeysOrdered(entries, j, i);
    }
  }

  /** An entry that is not accepted is left behind. */
  lemma PassOver(entries: seq<Entry>, sequence: nat, from: nat, skipping0: bool, skip0: Slice, i: nat, skipping: bool, skip: Slice)
    requires Sorted(entries) && i < |entries| && Scanning(entries, sequence, from, skipping0, skip0, i, skipping, skip)
    requires entries[i].seqno <= sequence ==> skipping && !Less(skip, entries[i].key)
    ensures Scanning(entries, sequence, from, skipping0, skip0, i + 1, skipping, skip)
  {
    assert !Acceptable(entries, sequence, i, skipping, skip);
    forall j, k | 0 <= j < i + 1 <= k < |entries| && entries[j].key == entries[k].key && entries[j].seqno <= sequence
      ensures skipping && !Less(skip, entries[k].key)
    {
    }
  }

  lemma ScanStops(entries: seq<Entry>, sequence: nat, from: nat, skipping0: bool, skip0: Slice, i: nat, skipping: bool, skip: Slice)
    requires Sorted(entries) && i < |entries| && Scanning(entries, sequence, from, skipping0, skip0, i, skipping, skip)
    requires entries[i].seqno <= sequence && entries[i].kind.Value? && (skipping ==> Less(skip, entries[i].key))
    ensures FirstAcceptable(entries, sequence, from, skipping0, skip0, i) && Shown(entries, sequence, i)
  {
    assert Acceptable(entries, sequence, i, skipping, skip);
  }

  lemma ScanningStarts(entries: seq<Entry>, sequence: nat, i: nat, skipping: bool, skip: Slice)
    requires i <= |entries| && SkipsRight(entries, sequence, i, skipping, skip)
    ensures Scanning(entries, sequence, i, skipping, skip, i, skipping, skip)
  {
    hide Less, Shown;
  }

  lemma NothingAccepted(entries: seq<Entry>, sequence: nat, from: nat, skipping0: bool, skip0: Slice, i: nat, skipping: bool, skip: Slice)
    requires i >= |entries| && Scanning(entries, sequence, from, skipping0, skip0, i, skipping, skip)
    ensures i == |entries| && FirstAcceptable(entries, sequence, from, skipping0, skip0, i)
  {
    hide Less, Shown;
  }

  /** At or a little before a row, its user key is the one to skip. */
  lemma SkipsRow(entries: seq<Entry>, sequence: nat, i: nat, row: nat)
    requires Sorted(entries) && i <= row < |entries|
    requires i == row || (forall k :: i <= k < row ==> entries[k].seqno > sequence)
    requires i == row || i == 0 || Less(entries[i - 1].key, entries[row].key)
    ensures SkipsRight(entries, sequence, i, true, entries[row].key)
  {
    var skip := entries[row].key;
    forall j, k | 0 <= j < i <= k < |entries| && entries[j].key == entries[k].key && entries[j].seqno <= sequence
      ensures !Less(skip, entries[k].key)
    {
      KeysOrdered(entries, j, row);
    }
    forall k | i <= k < |entries| && entries[k].seqno <= sequence
      ensures !Less(entries[k].key, skip)
    {
      KeysOrdered(entries, row, k);
    }
  }

  /** The first row of a later user key is the next row. */
  lemma FirstAfter(entries: seq<Entry>, sequence: nat, from: nat, row: nat, r: nat)
    requires Sorted(entries) && from <= row < |entries| && Shown(entries, sequence, row)
    requires FirstAcceptable(entries, sequence, from, true, entries[row].key, r)
    ensures |Rows(entries, sequence, r)| == |Rows(entries, sequence, row)| + 1
    ensures r < |entries| ==> |Rows(entries, sequence, r)| < |Table(entries, sequence)|
  {
    if r <= row {
      KeysOrdered(entries, r, row);
    }
    forall k | row < k < r
      ensures !Shown(entries, sequence, k)
    {
      assert !Acceptable(entries, sequence, k, true, entries[row].key);
      if Shown(entries, sequence, k) { ShownIncrease(entries, sequence, row, k); }
    }
    NextRow(entries, sequence, row, r);
    if r < |entries| { RowAt(entries, sequence, r); }
  }

  lemma FirstRow(entries: seq<Entry>, sequence: nat, skip: Slice, r: nat)
    requires FirstAcceptable(entries, sequence, 0, false, skip, r)
    ensures Rows(entries, sequence, r) == []
    ensures r < |entries| <==> Table(entries, sequence) != []
  {
    forall k | 0 <= k < r
      ensures !Shown(entries, sequence, k)
    {
      assert !Acceptable(entries, sequence, k, false, skip);
    }
    RowsGrow(entries, sequence, 0, r);
    if r < |entries| { RowAt(entries, sequence, r); }
  }

  lemma NothingBehind(entries: seq<Entry>, sequence: nat, at: nat, row: nat)
    requires row < |entries| && Behind(entries, sequence, at, row)
    ensures Rows(entries, sequence, Start(entries, at)) == Rows(entries, sequence, row)
  {
    RowsGrow(entries, sequence, Start(entries, at), row);
  }

  /** Where Seek stands with respect to a user key. */
  ghost predicate RowFor(table: seq<Entry>, target: Slice, position: Option<nat>)
  {
    match position
    case None => forall i :: 0 <= i < |table| ==> Less(table[i].key, target)
    case Some(p) => p < |table| && !Less(table[p].key, target) && forall i :: 0 <= i < p ==> Less(table[i].key, target)
  }

  lemma SeekSplits(entries: seq<Entry>, sequence: nat, target: Slice, at: nat)
    requires Sorted(entries) && at == SeekFrom(entries, LookupKey(target, sequence), 0)
    ensures SkipsRight(entries, sequence, at, false, [])
    ensures forall j :: 0 <= j < at && entries[j].seqno <= sequence ==> Less(entries[j].key, target)
    ensures forall k :: at <= k < |entries| ==> !Less(entries[k].key, target)
  {
    forall k | at <= k < |entries|
      ensures !Less(entries[k].key, target)
    {
      KeysOrdered(entries, at, k);
      Order(target, entries[at].key, entries[k].key);
    }
    LessIrreflexive(target);
  }

  lemma FirstFrom(entries: seq<Entry>, sequence: nat, target: Slice, from: nat, r: nat)
    requires Sorted(entries) && FirstAcceptable(entries, sequence, from, false, [], r)
    requires forall j :: 0 <= j < from && entries[j].seqno <= sequence ==> Less(entries[j].key, target)
    requires forall k :: from <= k < |entries| ==> !Less(entries[k].key, target)
    ensures RowFor(Table(entries, sequence), target, if r < |entries| then Some(|Rows(entries, sequence, r)|) else None)
  {
    var table := Table(entries, sequence);
    if r < |entries| { RowAt(entries, sequence, r); }
    RowsGrow(entries, sequence, r, |entries|);
    forall q | 0 <= q < |Rows(entries, sequence, r)|
      ensures Less(table[q].key, target)
    {
      var i := RowIsShown(entries, sequence, r, q);
      assert from <= i ==> !Acceptable(entries, sequence, i, false, []);
    }
  }

  /** Between the row and an earlier user key nothing is shown. */
  lemma NothingBefore(entries: seq<Entry>, sequence: nat, i: nat, row: nat)
    requires Sorted(entries) && i <= row < |entries| && Shown(entries, sequence, row)
    requires forall k :: i <= k < row ==> !Less(entries[k].key, entries[row].key)
    ensures Rows(entries, sequence, i) == Rows(entries, sequence, row)
  {
    forall k | i <= k < row
      ensures !Shown(entries, sequence, k)
    {
      KeysOrdered(entries, k, row);
      LessTotal(entries[k].key, entries[row].key);
    }
    RowsGrow(entries, sequence, i, row);
  }

  /** The backward scan over the entries from `i` up to `upTo` has the candidate `c`, if `kind` is a value. */
  ghost predicate Scanned(entries: seq<Entry>, sequence: nat, upTo: nat, i: nat, kind: Kind, c: nat)
  {
    && i <= upTo <= |entries|
    && (kind.Deletion? ==> forall k :: i <= k < upTo ==> !Shown(entries, sequence, k))
    && (kind.Value? ==>
          && i <= c < upTo && entries[c].seqno <= sequence && entries[c].kind.Value?
          && (forall k :: i <= k < c ==> entries[k].seqno > sequence)
          && (forall k :: c < k < upTo ==> !Shown(entries, sequence, k)))
  }

  lemma ScanBegins(entries: seq<Entry>, sequence: nat, upTo: nat, c: nat)
    requires upTo <= |entries|
    ensures Scanned(entries, sequence, upTo, upTo, Deletion, c)
  {
  }

  /** What a scan has found so far. */
  lemma Candidate(entries: seq<Entry>, sequence: nat, upTo: nat, i: nat, kind: Kind, c: nat)
    requires Scanned(entries, sequence, upTo, i, kind, c)
    ensures i <= upTo <= |entries|
    ensures kind.Deletion? && i == 0 ==> forall k :: 0 <= k < upTo ==> !Shown(entries, sequence, k)
    ensures kind.Value? ==> i <= c < upTo && BehindCandidate(entries, sequence, i, c)
  {
  }

  /** The scan stands between the candidate and what is hidden behind it. */
  ghost predicate BehindCandidate(entries: seq<Entry>, sequence: nat, i: nat, c: nat)
  {
    i <= c < |entries| && entries[c].seqno <= sequence && entries[c].kind.Value? && forall k :: i <= k < c ==> entries[k].seqno > sequence
  }

  lemma BackInvisible(entries: seq<Entry>, sequence: nat, upTo: nat, i: nat, kind: Kind, c: nat)
    requires Scanned(entries, sequence, upTo, i + 1, kind, c) && entries[i].seqno > sequence
    ensures Scanned(entries, sequence, upTo, i, kind, c)
  {
  }

  lemma BackVisible(entries: seq<Entry>, sequence: nat, upTo: nat, i: nat, kind: Kind, c: nat)
    requires Sorted(entries) && Scanned(entries, sequence, upTo, i + 1, kind, c) && entries[i].seqno <= sequence
    requires kind.Value? ==> !Less(entries[i].key, entries[c].key)
    ensures Scanned(entries, sequence, upTo, i, entries[i].kind, if entries[i].kind.Value? then i else c)
  {
    if kind.Value? {
      KeysOrdered(entries, i, c);
      LessTotal(entries[i].key, entries[c].key);
    }
  }

  /** The candidate is a row, once an earlier user key or the start is reached. */
  lemma BackStops(entries: seq<Entry>, sequence: nat, upTo: nat, i: nat, c: nat)
    requires Sorted(entries) && Scanned(entries, sequence, upTo, i, Value, c)
    requires i == 0 || Less(entries[i - 1].key, entries[c].key)
    ensures LastShown(entries, sequence, upTo, c)
  {
    forall j | 0 <= j < c && entries[j].key == entries[c].key
      ensures entries[j].seqno > sequence
    {
      if j < i { KeysOrdered(entries, j, i - 1); }
    }
  }

  lemma LastBefore(entries: seq<Entry>, sequence: nat, upTo: nat, found: bool, r: nat)
    requires upTo <= |entries|
    requires if found then LastShown(entries, sequence, upTo, r) else forall k :: 0 <= k < upTo ==> !Shown(entries, sequence, k)
    ensures found ==> |Rows(entries, sequence, r)| + 1 == |Rows(entries, sequence, upTo)|
    ensures !found ==> Rows(entries, sequence, upTo) == []
  {
    if found {
      NextRow(entries, sequence, r, upTo);
    } else {
      RowsGrow(entries, sequence, 0, upTo);
    }
  }
}
