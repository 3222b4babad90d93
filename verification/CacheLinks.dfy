/** The pointers inside the LRU cache (util/cache.cc): circular lists and hash chains. */
module CacheLinks {
  import opened Bytes

  /** The links of an LRUHandle, and what its place in the hash table depends on. */
  class Handle {
    const key: Slice
    const hash: nat
    var nextHash: Handle?
    var next: Handle?
    var prev: Handle?

    constructor (key: Slice, hash: nat)
      ensures this.key == key && this.hash == hash
    {
      this.key, this.hash, nextHash, next, prev := key, hash, null, null, null;
    }

    /** A dummy head, linked to itself. */
    constructor Head()
      ensures Ring(this, [])
    {
      key, hash, nextHash := [], 0, null;
      next, prev := this, this;
    }
  }

  // ------------------------------------------------------------------ circular lists

  /** Around the circle: the head, the elements, and the head again. */
  function Around(head: Handle, s: seq<Handle>, i: int): Handle
  {
    if 0 <= i < |s| then s[i] else head
  }

  ghost predicate Ring(head: Handle, s: seq<Handle>)
    reads head, s
  {
    && head !in s && (forall i, j :: 0 <= i < j < |s| ==> s[i] != s[j])
    && (forall i :: -1 <= i < |s| ==> Around(head, s, i).next == Around(head, s, i + 1))
    && (forall i :: 0 <= i <= |s| ==> Around(head, s, i).prev == Around(head, s, i - 1))
  }

  /** LRU_Append: just before the head, so the newest. */
  method LruAppend(head: Handle, e: Handle, ghost s: seq<Handle>)
    requires Ring(head, s) && e != head && e !in s
    modifies head, s, e
    ensures Ring(head, s + [e])
  {
    assert Around(head, s, |s|).prev == Around(head, s, |s| - 1);
    e.next := head;
    e.prev := head.prev;
    e.prev.next := e;
    e.next.prev := e;
    ghost var t := s + [e];
    forall i | -1 <= i < |t| ensures Around(head, t, i).next == Around(head, t, i + 1) {
      assert i < |s| ==> old(Around(head, s, i).next) == Around(head, s, i + 1);
    }
    forall i | 0 <= i <= |t| ensures Around(head, t, i).prev == Around(head, t, i - 1) {
      assert i < |s| ==> old(Around(head, s, i).prev) == Around(head, s, i - 1);
    }
  }

  /** LRU_Remove, from wherever it is. */
  method LruRemove(e: Handle, ghost head: Handle, ghost s: seq<Handle>, ghost at: nat)
    requires Ring(head, s) && at < |s| && s[at] == e
    modifies head, s
    ensures Ring(head, s[..at] + s[at + 1..])
  {
    assert Around(head, s, at).next == Around(head, s, at + 1) && Around(head, s, at).prev == Around(head, s, at - 1);
    e.next.prev := e.prev;
    e.prev.next := e.next;
    ghost var t := s[..at] + s[at + 1..];
    forall i | -1 <= i < |t| ensures Around(head, t, i).next == Around(head, t, i + 1) {
      ghost var k := if i < at then i else i + 1;
      assert old(Around(head, s, k).next) == Around(head, s, k + 1);
    }
    forall i | 0 <= i <= |t| ensures Around(head, t, i).prev == Around(head, t, i - 1) {
      ghost var k := if i < at then i else i + 1;
      assert old(Around(head, s, k).prev) == Around(head, s, k - 1);
    }
  }

  /** What Ref and Unref do with a cached handle: out of one of the two lists, and in at the new end of the other. */
  method LruMove(e: Handle, ghost from: Handle, ghost s: seq<Handle>, ghost at: nat, to: Handle, ghost t: seq<Handle>)
    requires Ring(from, s) && Ring(to, t) && at < |s| && s[at] == e
    requires from != to && from !in t && to !in s && forall x :: x in s ==> x !in t
    modifies from, s, to, t
    ensures Ring(from, s[..at] + s[at + 1..]) && Ring(to, t + [e])
  {
    ghost var left := s[..at] + s[at + 1..];
    assert forall i :: 0 <= i < |left| ==> left[i] in s && left[i] != e;
    LruRemove(e, from, s, at);
    forall i | -1 <= i <= |t|
      ensures Around(to, t, i).next == old(Around(to, t, i).next) && Around(to, t, i).prev == old(Around(to, t, i).prev)
    {
      assert Around(to, t, i) == to || Around(to, t, i) in t;
    }
    assert Ring(to, t);
    label Removed:
    LruAppend(to, e, t);
    forall i | -1 <= i <= |left|
      ensures Around(from, left, i).next == old@Removed(Around(from, left, i).next)
      ensures Around(from, left, i).prev == old@Removed(Around(from, left, i).prev)
    {
      assert Around(from, left, i) == from || (Around(from, left, i) in s && Around(from, left, i) != e);
    }
  }

  /** The list is empty exactly if its head is linked to itself; otherwise the head is linked to the oldest. */
  lemma OldestIsFirst(head: Handle, s: seq<Handle>)
    requires Ring(head, s)
    ensures head.next == head <==> s == []
    ensures s != [] ==> head.next == s[0] && head.prev == s[|s| - 1]
  {
    assert Around(head, s, -1).next == Around(head, s, 0);
    assert Around(head, s, |s|).prev == Around(head, s, |s| - 1);
  }

  // ------------------------------------------------------------------ hash chains

  function First(s: seq<Handle>, i: nat): Handle?
  {
    if i < |s| then s[i] else null
  }

  /** Bitwise and. */
  function And(a: nat, b: nat): (r: nat)
    ensures r <= b
    decreases a
  {
    if a == 0 || b == 0 then 0 else (if a % 2 == 1 && b % 2 == 1 then 1 else 0) + 2 * And(a / 2, b / 2)
  }

  function BucketOf(hash: nat, length: nat): (b: nat)
    requires length > 0
    ensures b < length
  {
    And(hash, length - 1)
  }

  predicate Same(a: Handle, b: Handle) { a.hash == b.hash && a.key == b.key }

  /** A chain of one bucket, linked, without two handles of the same hash and key. */
  ghost predicate Chain(first: Handle?, s: seq<Handle>, bucket: nat, length: nat)
    reads s
    requires length > 0
  {
    && first == First(s, 0)
    && (forall i :: 0 <= i < |s| ==> s[i].nextHash == First(s, i + 1))
    && (forall i :: 0 <= i < |s| ==> BucketOf(s[i].hash, length) == bucket)
    && (forall i, j :: 0 <= i < j < |s| ==> !Same(s[i], s[j]))
  }

  /** A slot: a bucket's, or the next_hash of a handle. */
  datatype Slot = Bucket | After(handle: Handle)

  /** What a slot of a bucket's chain points to. */
  ghost predicate SlotAt(slot: Slot, s: seq<Handle>, k: nat)
  {
    k <= |s| && slot == if k == 0 then Bucket else After(s[k - 1])
  }

  /** Every handle is in the chain of its bucket, and nothing else is in a chain. */
  ghost predicate Placed(chains: seq<seq<Handle>>, handles: set<Handle>)
    requires |chains| > 0
  {
    && (forall e :: e in handles ==> e in chains[BucketOf(e.hash, |chains|)])
    && (forall b, i :: 0 <= b < |chains| && 0 <= i < |chains[b]| ==> chains[b][i] in handles)
  }

  ghost predicate Chained(list: array<Handle?>, chains: seq<seq<Handle>>)
    reads list, set b, i | 0 <= b < |chains| && 0 <= i < |chains[b]| :: chains[b][i]
  {
    && |chains| == list.Length > 0
    && (forall b :: 0 <= b < |chains| ==> Chain(list[b], chains[b], b, |chains|))
  }

  /** The handles of the first `i` chains, and the first `k` of the next. */
  ghost function UpTo(chains: seq<seq<Handle>>, i: nat, k: nat): set<Handle>
  {
    set b, j | 0 <= b < |chains| && 0 <= j < |chains[b]| && (b < i || (b == i && j < k)) :: chains[b][j]
  }

  /** No handle stands twice in the chains, and no two are the same. */
  ghost predicate AllDiffer(chains: seq<seq<Handle>>)
  {
    forall b, j, c, k :: 0 <= b < |chains| && 0 <= j < |chains[b]| && 0 <= c < |chains| && 0 <= k < |chains[c]| && (b != c || j != k) ==>
      chains[b][j] != chains[c][k] && !Same(chains[b][j], chains[c][k])
  }

  class HandleTable {
    var elems: nat
    var list: array<Handle?>
    ghost var chains: seq<seq<Handle>>
    /** The handles in the table. */
    ghost var handles: set<Handle>

    ghost predicate Valid()
      reads this, list, handles
    {
      |chains| > 0 && Placed(chains, handles) && Linked() && elems == |handles| <= |chains|
    }

    ghost predicate Linked()
      reads this`chains, this`list, list, set b, i | 0 <= b < |chains| && 0 <= i < |chains[b]| :: chains[b][i]
    {
      Chained(list, chains)
    }

    /** Of nothing, Resize makes four empty chains. */
    constructor ()
      ensures Valid() && handles == {}
    {
      elems, handles := 0, {};
      list := new Handle?[4](_ => null);
      chains := seq(4, _ => []);
    }

    lemma InOneChain(b: nat, k: nat)
      requires Linked() && b < |chains| && k < |chains[b]|
      ensures BucketOf(chains[b][k].hash, |chains|) == b
      ensures forall c :: 0 <= c < |chains| && c != b ==> chains[b][k] !in chains[c]
    {
      hide BucketOf;
      assert Chain(list[b], chains[b], b, |chains|);
      forall c | 0 <= c < |chains| && c != b ensures chains[b][k] !in chains[c] {
        assert Chain(list[c], chains[c], c, |chains|);
      }
    }

    lemma TableShape()
      requires Valid()
      ensures list.Length == |chains| > 0
    {
    }

    /** The chain of a bucket starts at its slot and has every handle of the bucket. */
    lemma ChainOf(bucket: nat)
      requires Valid() && bucket < |chains| == list.Length
      ensures list[bucket] == First(chains[bucket], 0)
      ensures forall e :: e in handles && BucketOf(e.hash, |chains|) == bucket ==> e in chains[bucket]
    {
      hide BucketOf, Same, First;
      assert Chain(list[bucket], chains[bucket], bucket, |chains|);
    }

    /** What a handle of the chain is, and where it leads. */
    lemma Follows(bucket: nat, k: nat)
      requires Valid() && bucket < |chains|
      ensures First(chains[bucket], k) == (if k < |chains[bucket]| then chains[bucket][k] else null)
      ensures k < |chains[bucket]| ==> chains[bucket][k].nextHash == First(chains[bucket], k + 1) && chains[bucket][k] in handles
    {
      hide BucketOf, Same;
      assert Chain(list[bucket], chains[bucket], bucket, |chains|);
    }

    /** FindPointer; `k` is the place in the chain of the handle the slot points to. */
    method FindPointer(key: Slice, hash: nat) returns (slot: Slot, ghost k: nat)
      requires Valid()
      ensures SlotAt(slot, chains[BucketOf(hash, |chains|)], k)
      ensures slot.After? ==> slot.handle in handles && !(slot.handle.hash == hash && slot.handle.key == key)
      ensures forall j :: 0 <= j < k ==> !(chains[BucketOf(hash, |chains|)][j].hash == hash && chains[BucketOf(hash, |chains|)][j].key == key)
      ensures k < |chains[BucketOf(hash, |chains|)]| ==> chains[BucketOf(hash, |chains|)][k].hash == hash && chains[BucketOf(hash, |chains|)][k].key == key
      ensures k == |chains[BucketOf(hash, |chains|)]| ==> forall e :: e in handles ==> !(e.hash == hash && e.key == key)
    {
      hide BucketOf, Same, Valid, First;
      TableShape();
      var bucket := BucketOf(hash, list.Length);
      ghost var chain := chains[bucket];
      ChainOf(bucket);
      slot, k := Bucket, 0;
      var at := list[bucket];
      while at != null && (at.hash != hash || at.key != key)
        invariant SlotAt(slot, chain, k) && at == First(chain, k)
        invariant forall j :: 0 <= j < k ==> !(chain[j].hash == hash && chain[j].key == key)
        invariant slot.After? ==> slot.handle in handles && !(slot.handle.hash == hash && slot.handle.key == key)
        decreases |chain| - k
      {
        Follows(bucket, k);
        slot, k := After(at), k + 1;
        at := at.nextHash;
      }
      Follows(bucket, k);
    }

    /** Reading through a slot. */
    method Load(slot: Slot, bucket: nat, ghost k: nat) returns (e: Handle?)
      requires Valid() && bucket < list.Length && SlotAt(slot, chains[bucket], k)
      ensures e == First(chains[bucket], k)
    {
      match slot
      case Bucket => e := list[bucket];
      case After(before) => e := before.nextHash;
    }

    method Lookup(key: Slice, hash: nat) returns (e: Handle?)
      requires Valid()
      ensures e != null ==> e in handles && e.hash == hash && e.key == key
      ensures e == null ==> forall x :: x in handles ==> !(x.hash == hash && x.key == key)
    {
      var slot, k := FindPointer(key, hash);
      e := Load(slot, BucketOf(hash, list.Length), k);
    }

    /** Writing through a slot: its chain from place `k` on becomes `tail`, already linked. */
    method Store(slot: Slot, b: nat, target: Handle?, ghost k: nat, ghost tail: seq<Handle>)
      requires Linked() && b < list.Length && SlotAt(slot, chains[b], k)
      requires Chain(target, tail, b, list.Length)
      requires forall i, j :: 0 <= i < k && 0 <= j < |tail| ==> !Same(chains[b][i], tail[j])
      modifies list, if slot.After? then {slot.handle} else {}
      ensures Chain(list[b], chains[b][..k] + tail, b, list.Length)
      ensures forall c :: 0 <= c < |chains| && c != b ==> Chain(list[c], chains[c], c, list.Length)
    {
      hide BucketOf, Chain;
      match slot
      case Bucket =>
        list[b] := target;
        assert chains[b][..0] + tail == tail;
      case After(before) =>
        LinkAfter(before, b, k, target, tail);
    }

    method LinkAfter(before: Handle, ghost b: nat, ghost k: nat, target: Handle?, ghost tail: seq<Handle>)
      requires Linked() && b < list.Length && 0 < k <= |chains[b]| && before == chains[b][k - 1]
      requires Chain(target, tail, b, list.Length)
      requires forall i, j :: 0 <= i < k && 0 <= j < |tail| ==> !Same(chains[b][i], tail[j])
      modifies before`nextHash
      ensures Chain(list[b], chains[b][..k] + tail, b, list.Length)
      ensures forall c :: 0 <= c < |chains| && c != b ==> Chain(list[c], chains[c], c, list.Length)
    {
      hide BucketOf;
      ghost var s := chains[b];
      assert Chain(list[b], s, b, |chains|);
      forall i | 0 <= i < k - 1 ensures s[i] != before {
        assert !Same(s[i], s[k - 1]);
      }
      forall i | 0 <= i < |tail| ensures tail[i] != before {
        assert !Same(s[k - 1], tail[i]);
      }
      forall c | 0 <= c < |chains| && c != b ensures before !in chains[c] {
        assert Chain(list[c], chains[c], c, |chains|);
      }
      before.nextHash := target;
      Joined(list[b], s, k, tail, b, list.Length);
    }

    /** Remove: the slot is made to point past the handle. */
    method Remove(key: Slice, hash: nat) returns (e: Handle?)
      requires Valid()
      modifies this`elems, this`chains, this`handles, list, handles
      ensures Valid()
      ensures e == null ==> handles == old(handles) && forall x :: x in handles ==> !(x.hash == hash && x.key == key)
      ensures e != null ==> e in old(handles) && e.hash == hash && e.key == key && handles == old(handles) - {e}
    {
      hide BucketOf, Chain, SlotAt, First;
      var slot, k := FindPointer(key, hash);
      var b := BucketOf(hash, list.Length);
      e := Load(slot, b, k);
      ghost var s := chains[b];
      AtSlot(slot, s, k);
      if e != null {
        elems := elems - 1;
        SlotInside(slot, s, k);
        PassOver(slot, b, e, k);
      }
    }

    method PassOver(slot: Slot, b: nat, e: Handle, ghost k: nat)
      requires |chains| > 0 && Placed(chains, handles) && Linked() && elems == |handles| - 1 < |chains|
      requires b < list.Length && SlotAt(slot, chains[b], k) && k < |chains[b]| && chains[b][k] == e
      requires slot.After? ==> slot.handle in handles
      modifies this`chains, this`handles, list, if slot.After? then {slot.handle} else {}
      ensures Valid() && handles == old(handles) - {e}
    {
      hide BucketOf, Chain, SlotAt, First;
      ghost var s := chains[b];
      InOneChain(b, k);
      TailOfChain(list[b], s, b, list.Length, k);
      OneLess(chains, handles, b, k);
      Store(slot, b, e.nextHash, k, s[k + 1..]);
      chains := chains[b := s[..k] + s[k + 1..]];
      handles := handles - {e};
    }

    /** Insert: in the place of a handle of the same key, or at the end of the chain. */
    method Insert(h: Handle) returns (replaced: Handle?)
      requires Valid() && h !in handles
      modifies this, list, handles, h
      ensures Valid()
      ensures replaced == null ==> handles == old(handles) + {h} && forall x :: x in old(handles) ==> !Same(x, h)
      ensures replaced != null ==> replaced in old(handles) && Same(replaced, h) && handles == old(handles) - {replaced} + {h}
    {
      hide Placed, Linked;
      replaced := Put(h);
      if replaced == null {
        elems := elems + 1;
        if elems > list.Length {
          Resize();
        }
      } else {
        assert |old(handles) - {replaced}| == |old(handles)| - 1;
      }
    }

    /** All of Insert but counting and resizing. */
    method Put(h: Handle) returns (replaced: Handle?)
      requires Valid() && h !in handles
      modifies this`chains, this`handles, list, handles, h
      ensures |chains| > 0 && Placed(chains, handles) && Linked() && |chains| == |old(chains)| == list.Length
      ensures replaced == null ==> handles == old(handles) + {h} && forall x :: x in old(handles) ==> !Same(x, h)
      ensures replaced != null ==> replaced in old(handles) && Same(replaced, h) && handles == old(handles) - {replaced} + {h}
    {
      hide BucketOf, Chain, SlotAt, First;
      var slot, k := FindPointer(h.key, h.hash);
      var b := BucketOf(h.hash, list.Length);
      replaced := Load(slot, b, k);
      AtSlot(slot, chains[b], k);
      SlotInside(slot, chains[b], k);
      WriteSlot(h, slot, b, replaced, k);
    }

    method WriteSlot(h: Handle, slot: Slot, b: nat, replaced: Handle?, ghost k: nat)
      requires Valid() && h !in handles && b < list.Length && b == BucketOf(h.hash, list.Length)
      requires SlotAt(slot, chains[b], k) && k <= |chains[b]| && (slot.After? ==> slot.handle in handles)
      requires replaced == if k < |chains[b]| then chains[b][k] else null
      requires k < |chains[b]| ==> Same(chains[b][k], h)
      requires forall i :: 0 <= i < k ==> !Same(chains[b][i], h)
      modifies this`chains, this`handles, list, if slot.After? then {slot.handle} else {}, h
      ensures |chains| > 0 && Placed(chains, handles) && Linked() && |chains| == |old(chains)| == list.Length
      ensures handles == old(handles) - (if replaced != null then {replaced} else {}) + {h}
    {
      hide BucketOf, Chain, SlotAt, First, Placed, Same;
      ghost var s := chains[b];
      ghost var t := [h] + RestAfter(s, k);
      if replaced != null {
        InOneChain(b, k);
      }
      RestOfChain(list[b], s, b, list.Length, k, h);
      OneInstead(chains, handles, h, b, k);
      h.nextHash := if replaced == null then null else replaced.nextHash;
      Prepend(h, RestAfter(s, k), b, list.Length);
      Store(slot, b, h, k, t);
      chains := chains[b := s[..k] + t];
      handles := handles - (if replaced != null then {replaced} else {}) + {h};
    }

    /** Resize: every chain in turn is taken apart, its handles going to the front of their new chains. */
    method Resize()
      requires |chains| > 0 && Placed(chains, handles) && Linked() && elems == |handles|
      modifies this`list, this`chains, handles
      ensures Valid() && handles == old(handles)
    {
      hide BucketOf, Chain, UpTo, AllDiffer, Placed;
      var newLength := 4;
      while newLength < elems
        invariant newLength >= 4
        decreases elems - newLength
      {
        newLength := newLength * 2;
      }
      var newList := new Handle?[newLength](_ => null);
      ghost var newChains: seq<seq<Handle>> := seq(newLength, _ => []);
      DifferAll(list, chains);
      AllEmpty(newList, newChains);
      NoneUpTo(chains);
      AllUpTo(chains, handles);
      EachChain(list, chains);
      var count := 0;
      for i := 0 to list.Length
        invariant newList.Length == newLength && |newChains| == newLength
        invariant Chained(newList, newChains) && Placed(newChains, UpTo(chains, i, 0)) && count == |UpTo(chains, i, 0)|
        invariant forall b :: i <= b < |chains| ==> Chain(list[b], chains[b], b, |chains|)
        modifies newList, handles
      {
        count, newChains := MoveChain(newList, i, newChains, count);
      }
      assert elems == count;
      list, chains := newList, newChains;
    }

    method MoveChain(newList: array<Handle?>, i: nat, ghost before: seq<seq<Handle>>, given: nat)
      returns (count: nat, ghost newChains: seq<seq<Handle>>)
      requires newList != list && i < |chains| == list.Length && AllDiffer(chains)
      requires |before| == newList.Length > 0 && Chained(newList, before)
      requires Placed(before, UpTo(chains, i, 0)) && given == |UpTo(chains, i, 0)|
      requires forall b :: i <= b < |chains| ==> Chain(list[b], chains[b], b, |chains|)
      modifies newList, UpTo(chains, |chains|, 0)
      ensures Chained(newList, newChains) && Placed(newChains, UpTo(chains, i + 1, 0)) && count == |UpTo(chains, i + 1, 0)|
      ensures |newChains| == |before|
      ensures forall b :: i + 1 <= b < |chains| ==> Chain(list[b], chains[b], b, |chains|)
    {
      hide BucketOf, Chain, UpTo, AllDiffer, Placed, Chained, First;
      count, newChains := given, before;
      ghost var s := chains[i];
      ghost var k := 0;
      var h := list[i];
      LinksOf(list[i], s, i, |chains|);
      while h != null
        invariant k <= |s| && h == First(s, k) && (forall j :: k <= j < |s| ==> s[j].nextHash == First(s, j + 1))
        invariant |newChains| == newList.Length == |before| > 0
        invariant Chained(newList, newChains) && Placed(newChains, UpTo(chains, i, k)) && count == |UpTo(chains, i, k)|
        invariant forall b :: i + 1 <= b < |chains| ==> Chain(list[b], chains[b], b, |chains|)
        decreases |s| - k
      {
        FirstIs(s, k);
        OneUpTo(chains, i, k);
        var next := h.nextHash;
        newChains := MoveHandle(newList, h, newChains, UpTo(chains, i, k));
        h := next;
        k := k + 1;
        count := count + 1;
      }
      FirstIs(s, k);
      ChainUpTo(chains, i);
    }

    method MoveHandle(newList: array<Handle?>, h: Handle, ghost before: seq<seq<Handle>>, ghost moved: set<Handle>)
      returns (ghost newChains: seq<seq<Handle>>)
      requires |before| == newList.Length > 0 && Chained(newList, before) && Placed(before, moved)
      requires forall x :: x in moved ==> x != h && !Same(h, x)
      modifies newList, h`nextHash
      ensures |newChains| == |before| && Chained(newList, newChains) && Placed(newChains, moved + {h})
    {
      hide BucketOf;
      hide Chain, Placed;
      var b := BucketOf(h.hash, newList.Length);
      OneAdded(before, moved, h, b);
      h.nextHash := newList[b];
      Prepend(h, before[b], b, newList.Length);
      newList[b] := h;
      newChains := before[b := [h] + before[b]];
    }
  }

  lemma OneAdded(chains: seq<seq<Handle>>, handles: set<Handle>, h: Handle, b: nat)
    requires |chains| > 0 && Placed(chains, handles) && b == BucketOf(h.hash, |chains|)
    requires forall x :: x in handles ==> x != h && !Same(h, x)
    ensures forall c, j :: 0 <= c < |chains| && 0 <= j < |chains[c]| ==> chains[c][j] != h && !Same(h, chains[c][j])
    ensures Placed(chains[b := [h] + chains[b]], handles + {h})
  {
    hide BucketOf;
  }

  lemma EachChain(list: array<Handle?>, chains: seq<seq<Handle>>)
    requires Chained(list, chains)
    ensures forall b :: 0 <= b < |chains| ==> Chain(list[b], chains[b], b, |chains|)
  {
  }

  lemma LinksOf(first: Handle?, s: seq<Handle>, bucket: nat, length: nat)
    requires length > 0 && Chain(first, s, bucket, length)
    ensures first == First(s, 0) && forall j :: 0 <= j < |s| ==> s[j].nextHash == First(s, j + 1)
  {
  }

  lemma FirstIs(s: seq<Handle>, k: nat)
    ensures First(s, k) == if k < |s| then s[k] else null
  {
  }

  /** One more handle of chain `i`; it is none of those before, nor of those still to come. */
  lemma OneUpTo(chains: seq<seq<Handle>>, i: nat, k: nat)
    requires i < |chains| && k < |chains[i]| && AllDiffer(chains)
    ensures UpTo(chains, i, k + 1) == UpTo(chains, i, k) + {chains[i][k]}
    ensures chains[i][k] !in UpTo(chains, i, k) && chains[i][k] in UpTo(chains, |chains|, 0)
    ensures forall x :: x in UpTo(chains, i, k) ==> !Same(chains[i][k], x)
    ensures forall j :: k < j < |chains[i]| ==> chains[i][j] != chains[i][k]
    ensures forall b :: 0 <= b < |chains| && b != i ==> chains[i][k] !in chains[b]
  {
  }

  lemma ChainUpTo(chains: seq<seq<Handle>>, i: nat)
    requires i < |chains|
    ensures UpTo(chains, i, |chains[i]|) == UpTo(chains, i + 1, 0)
  {
  }

  lemma AtSlot(slot: Slot, s: seq<Handle>, k: nat)
    requires SlotAt(slot, s, k)
    ensures k <= |s| && First(s, k) == if k < |s| then s[k] else null
  {
  }

  /** Part of a chain, and behind it another, which its last handle has been made to point to. */
  lemma Joined(first: Handle?, s: seq<Handle>, k: nat, tail: seq<Handle>, bucket: nat, length: nat)
    requires length > 0 && k <= |s|
    requires first == if k == 0 then First(tail, 0) else s[0]
    requires forall i :: 0 <= i < k - 1 ==> s[i].nextHash == s[i + 1]
    requires k > 0 ==> s[k - 1].nextHash == First(tail, 0)
    requires forall i :: 0 <= i < |tail| ==> tail[i].nextHash == First(tail, i + 1)
    requires forall i :: 0 <= i < k ==> BucketOf(s[i].hash, length) == bucket
    requires forall i :: 0 <= i < |tail| ==> BucketOf(tail[i].hash, length) == bucket
    requires forall i, j :: 0 <= i < j < k ==> !Same(s[i], s[j])
    requires forall i, j :: 0 <= i < j < |tail| ==> !Same(tail[i], tail[j])
    requires forall i, j :: 0 <= i < k && 0 <= j < |tail| ==> !Same(s[i], tail[j])
    ensures Chain(first, s[..k] + tail, bucket, length)
  {
    hide BucketOf;
    var t := s[..k] + tail;
    forall i | 0 <= i < |t| ensures t[i].nextHash == First(t, i + 1) {
      if i < k - 1 {
        assert t[i] == s[i] && t[i + 1] == s[i + 1];
      } else if i >= k {
        assert t[i] == tail[i - k];
      }
    }
  }

  lemma OneLess(chains: seq<seq<Handle>>, handles: set<Handle>, b: nat, k: nat)
    requires b < |chains| && k < |chains[b]| && Placed(chains, handles)
    requires forall x :: x in chains[b] ==> x == chains[b][k] || x in chains[b][..k] + chains[b][k + 1..]
    requires chains[b][k] !in chains[b][..k] + chains[b][k + 1..]
    requires forall c :: 0 <= c < |chains| && c != b ==> chains[b][k] !in chains[c]
    ensures Placed(chains[b := chains[b][..k] + chains[b][k + 1..]], handles - {chains[b][k]})
  {
    hide BucketOf;
    var s := chains[b][..k] + chains[b][k + 1..];
    forall x | x in s ensures x in chains[b] {
    }
  }

  lemma DifferAll(list: array<Handle?>, chains: seq<seq<Handle>>)
    requires Chained(list, chains)
    ensures AllDiffer(chains)
  {
    hide BucketOf;
    forall b, j, c, k | 0 <= b < |chains| && 0 <= j < |chains[b]| && 0 <= c < |chains| && 0 <= k < |chains[c]| && (b != c || j != k)
      ensures chains[b][j] != chains[c][k] && !Same(chains[b][j], chains[c][k])
    {
      assert Chain(list[b], chains[b], b, |chains|) && Chain(list[c], chains[c], c, |chains|);
    }
  }

  lemma AllEmpty(list: array<Handle?>, chains: seq<seq<Handle>>)
    requires |chains| == list.Length > 0 && (forall b :: 0 <= b < |chains| ==> chains[b] == []) && (forall b :: 0 <= b < |chains| ==> list[b] == null)
    ensures Chained(list, chains) && Placed(chains, {})
  {
  }

  lemma NoneUpTo(chains: seq<seq<Handle>>)
    ensures UpTo(chains, 0, 0) == {}
  {
  }

  lemma AllUpTo(chains: seq<seq<Handle>>, handles: set<Handle>)
    requires |chains| > 0 && Placed(chains, handles)
    ensures UpTo(chains, |chains|, 0) == handles
  {
    hide BucketOf;
    forall e | e in handles ensures e in UpTo(chains, |chains|, 0) {
      var b := BucketOf(e.hash, |chains|);
      var j :| 0 <= j < |chains[b]| && chains[b][j] == e;
    }
  }

  lemma SlotInside(slot: Slot, s: seq<Handle>, k: nat)
    requires SlotAt(slot, s, k)
    ensures slot.After? ==> 0 < k <= |s| && slot.handle == s[k - 1]
  {
  }

  /** The chain behind the handle at place `k`, if there is one. */
  function RestAfter(s: seq<Handle>, k: nat): seq<Handle>
  {
    if k < |s| then s[k + 1..] else []
  }

  lemma RestOfChain(first: Handle?, s: seq<Handle>, bucket: nat, length: nat, k: nat, h: Handle)
    requires length > 0 && Chain(first, s, bucket, length) && k <= |s|
    requires (k < |s| ==> Same(s[k], h)) && forall i :: 0 <= i < k ==> !Same(s[i], h)
    ensures Chain(if k < |s| then s[k].nextHash else null, RestAfter(s, k), bucket, length)
    ensures var rest := RestAfter(s, k); forall j :: 0 <= j < |rest| ==> !Same(h, rest[j])
    ensures var t := [h] + RestAfter(s, k); forall i, j :: 0 <= i < k && 0 <= j < |t| ==> !Same(s[i], t[j])
    ensures k < |s| ==> forall x :: x in s ==> x == s[k] || x in s[..k] + s[k + 1..]
    ensures k < |s| ==> s[k] !in s[..k] + s[k + 1..]
  {
    hide BucketOf;
    if k < |s| {
      hide Chain;
      TailOfChain(first, s, bucket, length, k);
    }
  }

  lemma Prepend(h: Handle, rest: seq<Handle>, bucket: nat, length: nat)
    requires length > 0 && Chain(h.nextHash, rest, bucket, length) && BucketOf(h.hash, length) == bucket
    requires forall j :: 0 <= j < |rest| ==> !Same(h, rest[j])
    ensures Chain(h, [h] + rest, bucket, length)
  {
    hide BucketOf;
  }

  lemma OneInstead(chains: seq<seq<Handle>>, handles: set<Handle>, h: Handle, b: nat, k: nat)
    requires h !in handles
    requires b < |chains| && k <= |chains[b]| && Placed(chains, handles) && BucketOf(h.hash, |chains|) == b
    requires k < |chains[b]| ==> forall x :: x in chains[b] ==> x == chains[b][k] || x in chains[b][..k] + chains[b][k + 1..]
    requires k < |chains[b]| ==> chains[b][k] !in chains[b][..k] + chains[b][k + 1..]
    requires k < |chains[b]| ==> forall c :: 0 <= c < |chains| && c != b ==> chains[b][k] !in chains[c]
    ensures forall c :: 0 <= c < |chains| ==> h !in chains[c]
    ensures var s := chains[b];
      Placed(chains[b := s[..k] + ([h] + RestAfter(s, k))], handles - (if k < |s| then {s[k]} else {}) + {h})
  {
    hide BucketOf;
  }

  lemma TailOfChain(first: Handle?, s: seq<Handle>, bucket: nat, length: nat, k: nat)
    requires length > 0 && Chain(first, s, bucket, length) && k < |s|
    ensures Chain(s[k].nextHash, s[k + 1..], bucket, length)
    ensures var t := s[k + 1..]; forall i, j :: 0 <= i < k && 0 <= j < |t| ==> !Same(s[i], t[j])
    ensures var t := s[k + 1..]; forall j :: 0 <= j < |t| ==> !Same(s[k], t[j])
    ensures forall x :: x in s ==> x == s[k] || x in s[..k] + s[k + 1..]
    ensures s[k] !in s[..k] + s[k + 1..]
  {
    var t := s[k + 1..];
    forall x | x in s && x != s[k] ensures x in s[..k] + t {
      var i :| 0 <= i < |s| && s[i] == x;
      assert if i < k then x == s[..k][i] else x == t[i - k - 1];
    }
    assert forall j :: 0 <= j < |t| ==> t[j] == s[j + k + 1];
  }
}
