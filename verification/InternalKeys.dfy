/** Internal keys (db/dbformat.h): a user key with a sequence number and a type. */
module InternalKeys {
  import opened Bytes

  datatype Option<+T> = None | Some(value: T)

  datatype Kind = Deletion | Value

  /** kMaxSequenceNumber: eight bits of the tag are left for the type. */
  const MAX_SEQUENCE: nat := 0xFF_FFFF_FFFF_FFFF

  /** What InternalKeyComparator compares: a user key and the packed sequence and type. */
  datatype IKey = IKey(user: Slice, tag: nat)

  function Code(kind: Kind): nat { if kind.Deletion? then 0 else 1 }

  function Tag(sequence: nat, kind: Kind): nat { sequence * 256 + Code(kind) }

  /** Increasing user key, then decreasing tag. */
  predicate ILess(a: IKey, b: IKey)
  {
    Less(a.user, b.user) || (a.user == b.user && a.tag > b.tag)
  }

  /** ILess is a total order too: the facts about three given internal keys. */
  lemma IOrder(a: IKey, b: IKey, c: IKey)
    ensures !ILess(a, a)
    ensures a == b || ILess(a, b) || ILess(b, a)
    ensures !(ILess(a, b) && ILess(b, a))
    ensures ILess(a, b) && ILess(b, c) ==> ILess(a, c)
    ensures !ILess(b, a) && ILess(b, c) ==> ILess(a, c)
    ensures ILess(a, b) && !ILess(c, b) ==> ILess(a, c)
    ensures !ILess(b, a) && !ILess(c, b) ==> !ILess(c, a)
  {
    Order(a.user, b.user, c.user);
    Order(b.user, c.user, a.user);
    Order(c.user, a.user, b.user);
  }

  /** One record of a memtable or a table. */
  datatype Entry = Entry(key: Slice, seqno: nat, kind: Kind, value: Slice) {
    function Ikey(): IKey { IKey(key, Tag(seqno, kind)) }
  }

  /** LookupKey: sorts before every entry of `key` visible at `snapshot` and after the newer ones. */
  function LookupKey(key: Slice, snapshot: nat): IKey { IKey(key, Tag(snapshot, Value)) }

  ghost predicate Sorted(run: seq<Entry>)
  {
    forall i, j :: 0 <= i < j < |run| ==> ILess(run[i].Ikey(), run[j].Ikey())
  }

  /** The answer of a search for `key` at `snapshot` among `entries`: the newest visible entry. */
  ghost predicate Sees(entries: set<Entry>, key: Slice, snapshot: nat, found: Option<Entry>)
  {
    match found
    case None => forall x :: x in entries && x.key == key ==> x.seqno > snapshot
    case Some(e) =>
      && e in entries && e.key == key && e.seqno <= snapshot
      && forall x :: x in entries && x.key == key && x.seqno <= snapshot ==> x.seqno <= e.seqno
  }

  /** One entry for each user key and sequence number. */
  ghost predicate Distinct(entries: set<Entry>)
  {
    forall x, y :: x in entries && y in entries && x.key == y.key && x.seqno == y.seqno ==> x == y
  }

  /** A newer entry of the user key hides `x` from every snapshot from `floor` on. */
  ghost predicate Superseded(entries: set<Entry>, x: Entry, floor: nat)
  {
    exists n :: n in entries && n.key == x.key && x.seqno < n.seqno <= floor
  }

  /** Every search has an answer. */
  lemma {:induction false} SomeAnswer(entries: set<Entry>, key: Slice, snapshot: nat) returns (found: Option<Entry>)
    ensures Sees(entries, key, snapshot, found)
    decreases entries
  {
    if x :| x in entries {
      found := SomeAnswer(entries - {x}, key, snapshot);
      if x.key == key && x.seqno <= snapshot && (found.None? || found.value.seqno < x.seqno) {
        found := Some(x);
      }
    } else {
      found := None;
    }
  }

  lemma SameAnswer(entries: set<Entry>, key: Slice, snapshot: nat, r: Option<Entry>, r': Option<Entry>)
    requires Distinct(entries) && Sees(entries, key, snapshot, r) && Sees(entries, key, snapshot, r')
    ensures r == r'
  {
  }

  /** What a reader is told: a deletion marker and no entry are both NotFound. */
  function Outcome(found: Option<Entry>): Option<Slice>
  {
    if found.Some? && found.value.kind.Value? then Some(found.value.value) else None
  }

  /** Reads of `stored` from `floor` on agree with reads of `all`. */
  ghost predicate ReadsAgree(stored: set<Entry>, all: set<Entry>, floor: nat)
  {
    forall key, snapshot, r, r' :: floor <= snapshot && Sees(stored, key, snapshot, r) && Sees(all, key, snapshot, r') ==>
                                   Outcome(r) == Outcome(r')
  }

  function Entries(run: seq<Entry>): set<Entry> { set e | e in run }

  /** Seek: position of the first entry at or after `target`. */
  ghost predicate SeeksTo(run: seq<Entry>, target: IKey, i: nat)
  {
    && i <= |run|
    && (forall j :: 0 <= j < i ==> ILess(run[j].Ikey(), target))
    && (forall j :: i <= j < |run| ==> !ILess(run[j].Ikey(), target))
  }

  /** MemTable::Get, and Table::InternalGet with SaveValue: look only at the entry Seek lands on. */
  function FoundAt(run: seq<Entry>, key: Slice, i: nat): Option<Entry>
    requires i <= |run|
  {
    if i < |run| && run[i].key == key then Some(run[i]) else None
  }

  /** Looking at one entry is enough in a sorted run. */
  lemma SeekFindsNewest(run: seq<Entry>, key: Slice, snapshot: nat, i: nat)
    requires Sorted(run) && SeeksTo(run, LookupKey(key, snapshot), i)
    ensures Sees(Entries(run), key, snapshot, FoundAt(run, key, i))
  {
    TotalOrder();
    forall j | 0 <= j < |run| && run[j].key == key && run[j].seqno <= snapshot
      ensures i < |run| && run[i].key == key && run[j].seqno <= run[i].seqno
    {
      assert i <= j;
      if i < j {
        assert ILess(run[i].Ikey(), run[j].Ikey());
      }
    }
  }

  /** Some runs, one after the other. */
  function Concat(parts: seq<seq<Entry>>): seq<Entry>
  {
    if parts == [] then [] else Concat(parts[..|parts| - 1]) + parts[|parts| - 1]
  }

  /** Iterator::Seek on a run, from position `i` on. */
  function SeekFrom(run: seq<Entry>, target: IKey, i: nat): (r: nat)
    requires i <= |run|
    ensures i <= r <= |run|
    ensures forall j :: i <= j < r ==> ILess(run[j].Ikey(), target)
    ensures r < |run| ==> !ILess(run[r].Ikey(), target)
    decreases |run| - i
  {
    if i < |run| && ILess(run[i].Ikey(), target) then SeekFrom(run, target, i + 1) else i
  }

  /** The lookup both MemTable::Get and Table::InternalGet perform. */
  function Find(run: seq<Entry>, key: Slice, snapshot: nat): Option<Entry>
  {
    FoundAt(run, key, SeekFrom(run, LookupKey(key, snapshot), 0))
  }

  lemma FindIsNewest(run: seq<Entry>, key: Slice, snapshot: nat)
    requires Sorted(run)
    ensures Sees(Entries(run), key, snapshot, Find(run, key, snapshot))
  {
    TotalOrder();
    var target := LookupKey(key, snapshot);
    var i := SeekFrom(run, target, 0);
    forall j | i < j < |run|
      ensures !ILess(run[j].Ikey(), target)
    {
      assert ILess(run[i].Ikey(), run[j].Ikey());
    }
    SeekFindsNewest(run, key, snapshot, i);
  }

  lemma FirstEntry(run: seq<Entry>)
    ensures run != [] ==> run[0] in Entries(run)
  {
    if run != [] {
      assert run[0] in run;
    }
  }
}
