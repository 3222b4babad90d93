/** The skip list behind a memtable (db/skiplist.h), with its links. */
module SkipLists {
  import opened Bytes
  import opened InternalKeys

  const MAX_HEIGHT: nat := 12

  class Node {
    const key: IKey
    var next: seq<Node?>

    constructor (key: IKey, height: nat)
      ensures this.key == key && next == seq(height, _ => null)
    {
      this.key := key;
      next := seq(height, _ => null);
    }
  }

  /** `i` nodes of a level have keys before `key`, and they come first. */
  ghost predicate Splits(level: seq<Node>, key: IKey, i: nat)
  {
    && i <= |level|
    && (forall j :: 0 <= j < i ==> ILess(level[j].key, key))
    && (forall j :: i <= j < |level| ==> !ILess(level[j].key, key))
  }

  ghost predicate NodesSorted(level: seq<Node>)
  {
    forall i, j :: 0 <= i < j < |level| ==> ILess(level[i].key, level[j].key)
  }

  lemma SplitsAtKey(level: seq<Node>, key: IKey, i: nat, j: nat)
    requires NodesSorted(level) && Splits(level, key, i) && j < |level| && level[j].key == key
    ensures i == j
  {
    IOrder(key, key, key);
    assert forall a :: 0 <= a < j ==> ILess(level[a].key, level[j].key);
    assert i <= j;
    assert !ILess(level[i].key, key);
  }

  function Inserted(level: seq<Node>, i: nat, x: Node): seq<Node>
    requires i <= |level|
  {
    level[..i] + [x] + level[i..]
  }

  class SkipList {
    const head: Node
    var maxHeight: nat
    /** The nodes linked at each level, in order, and all nodes. */
    ghost var levels: seq<seq<Node>>
    ghost var nodes: set<Node>

    /** The node before position `i` of a list, and the one at it. */
    ghost function NodeBefore(list: seq<Node>, i: nat): Node
      requires i <= |list|
    {
      if i == 0 then head else list[i - 1]
    }

    ghost function NodeAt(list: seq<Node>, i: nat): Node?
      requires i <= |list|
    {
      if i == |list| then null else list[i]
    }

    ghost function Before(level: nat, i: nat): Node
      requires level < |levels| && i <= |levels[level]|
      reads this
    {
      NodeBefore(levels[level], i)
    }

    ghost function At(level: nat, i: nat): Node?
      requires level < |levels| && i <= |levels[level]|
      reads this
    {
      NodeAt(levels[level], i)
    }

    /** At level `l`, the node before position `i` of `list` leads to the node at it. */
    ghost predicate LeadsOn(list: seq<Node>, l: nat, i: nat)
      requires i <= |list|
      reads nodes, this`nodes
    {
      var n := NodeBefore(list, i);
      n in nodes && l < |n.next| && n.next[l] == NodeAt(list, i)
    }

    /** The links of a level run through its nodes. */
    ghost predicate Linked(level: nat)
      reads this, nodes
    {
      && level < |levels| && NodesSorted(levels[level])
      && (forall n :: n in levels[level] ==> n in nodes && n != head)
      && (forall i :: 0 <= i <= |levels[level]| ==> LeadsOn(levels[level], level, i))
    }

    ghost predicate Nested(level: nat)
      reads this
    {
      1 <= level < |levels| ==> forall n :: n in levels[level] ==> n in levels[level - 1]
    }

    ghost predicate Valid()
      reads this, nodes
    {
      && |levels| == MAX_HEIGHT && 1 <= maxHeight <= MAX_HEIGHT && head in nodes && |head.next| == MAX_HEIGHT
      && (forall l :: 0 <= l < MAX_HEIGHT ==> Linked(l) && Nested(l))
      && (forall l :: maxHeight <= l < MAX_HEIGHT ==> levels[l] == [])
    }

    constructor ()
      ensures Valid() && fresh(nodes) && levels[0] == []
    {
      head := new Node(IKey([], 0), MAX_HEIGHT);
      maxHeight := 1;
      levels := seq(MAX_HEIGHT, _ => []);
      new;
      nodes := {head};
    }

    /** Going right from position `i` of a level. */
    lemma Step(level: nat, i: nat)
      requires Valid() && level < MAX_HEIGHT && i <= |levels[level]|
      ensures Before(level, i) in nodes && level < |Before(level, i).next| && Before(level, i).next[level] == At(level, i)
    {
      assert Linked(level);
      assert LeadsOn(levels[level], level, i);
    }

    /** Going down from position `i` of a level: the position of the same node one level below. */
    lemma Down(level: nat, i: nat, key: IKey) returns (j: nat)
      requires Valid() && 1 <= level < MAX_HEIGHT && i <= |levels[level]|
      requires forall k :: 0 <= k < i ==> ILess(levels[level][k].key, key)
      ensures var lower := levels[level - 1];
              j <= |lower| && Before(level - 1, j) == Before(level, i) && forall k :: 0 <= k < j ==> ILess(lower[k].key, key)
    {
      assert Nested(level) && Linked(level - 1);
      if i == 0 {
        j := 0;
      } else {
        var n, lower := levels[level][i - 1], levels[level - 1];
        assert n in levels[level] && n in lower;
        var k :| 0 <= k < |lower| && lower[k] == n;
        j := k + 1;
        forall m | 0 <= m < j
          ensures ILess(lower[m].key, key)
        {
          IOrder(lower[m].key, n.key, key);
        }
      }
    }

    lemma Stops(level: nat, i: nat, key: IKey)
      requires Valid() && level < MAX_HEIGHT && i <= |levels[level]|
      requires forall k :: 0 <= k < i ==> ILess(levels[level][k].key, key)
      requires i < |levels[level]| ==> !ILess(levels[level][i].key, key)
      ensures Splits(levels[level], key, i)
    {
      assert Linked(level);
      forall j | i <= j < |levels[level]|
        ensures !ILess(levels[level][j].key, key)
      {
        IOrder(levels[level][i].key, levels[level][j].key, key);
        IOrder(key, levels[level][i].key, levels[level][j].key);
      }
    }

    /** The first node at or after `key`, and the last node before it at every level. */
    method FindGreaterOrEqual(key: IKey) returns (r: Node?, prev: seq<Node>, ghost at: seq<nat>)
      requires Valid()
      ensures |prev| == |at| == MAX_HEIGHT
      ensures forall l :: 0 <= l < maxHeight ==> Splits(levels[l], key, at[l]) && prev[l] == Before(l, at[l])
      ensures Splits(levels[0], key, at[0]) && r == At(0, at[0])
      ensures r != null ==> !ILess(r.key, key)
    {
      var x := head;
      var level: nat := maxHeight - 1;
      ghost var i: nat := 0;
      prev, at := seq(MAX_HEIGHT, _ => head), seq(MAX_HEIGHT, _ => 0);
      while true
        invariant 0 <= level < maxHeight && |prev| == |at| == MAX_HEIGHT
        invariant i <= |levels[level]| && x == Before(level, i) && forall k :: 0 <= k < i ==> ILess(levels[level][k].key, key)
        invariant forall l :: level < l < maxHeight ==> Splits(levels[l], key, at[l]) && prev[l] == Before(l, at[l])
        decreases level, |levels[level]| - i
      {
        Step(level, i);
        var next := x.next[level];
        if next != null && ILess(next.key, key) {
          x := next;
          i := i + 1;
        } else {
          Stops(level, i, key);
          prev, at := prev[level := x], at[level := i];
          if level == 0 { return next, prev, at; }
          i := Down(level, i, key);
          level := level - 1;
        }
      }
    }

    method FindLessThan(key: IKey) returns (x: Node, ghost i: nat)
      requires Valid()
      ensures Splits(levels[0], key, i) && x == Before(0, i)
      ensures x == head || (x in levels[0] && ILess(x.key, key))
    {
      x := head;
      i := 0;
      var level: nat := maxHeight - 1;
      while true
        invariant 0 <= level < maxHeight
        invariant i <= |levels[level]| && x == Before(level, i) && forall k :: 0 <= k < i ==> ILess(levels[level][k].key, key)
        decreases level, |levels[level]| - i
      {
        Step(level, i);
        var next := x.next[level];
        if next == null || !ILess(next.key, key) {
          Stops(level, i, key);
          if level == 0 { return; }
          i := Down(level, i, key);
          level := level - 1;
        } else {
          x := next;
          i := i + 1;
        }
      }
    }

    method FindLast() returns (x: Node)
      requires Valid()
      ensures x == Before(0, |levels[0]|)
    {
      x := head;
      var level: nat := maxHeight - 1;
      ghost var i: nat := 0;
      while true
        invariant 0 <= level < maxHeight && i <= |levels[level]| && x == Before(level, i)
        decreases level, |levels[level]| - i
      {
        Step(level, i);
        var next := x.next[level];
        if next == null {
          if level == 0 { return; }
          i := DownAny(level, i);
          level := level - 1;
        } else {
          x := next;
          i := i + 1;
        }
      }
    }

    lemma DownAny(level: nat, i: nat) returns (j: nat)
      requires Valid() && 1 <= level < MAX_HEIGHT && i <= |levels[level]|
      ensures j <= |levels[level - 1]| && Before(level - 1, j) == Before(level, i)
    {
      assert Nested(level) && Linked(level - 1);
      if i == 0 {
        j := 0;
      } else {
        var n, lower := levels[level][i - 1], levels[level - 1];
        assert n in levels[level] && n in lower;
        var k :| 0 <= k < |lower| && lower[k] == n;
        j := k + 1;
      }
    }

    method Contains(key: IKey) returns (r: bool)
      requires Valid()
      ensures r <==> exists n :: n in levels[0] && n.key == key
    {
      var x, prev, at := FindGreaterOrEqual(key);
      r := x != null && x.key == key;
      assert Linked(0);
      forall n | n in levels[0] && n.key == key
        ensures r
      {
        var j :| 0 <= j < |levels[0]| && levels[0][j] == n;
        SplitsAtKey(levels[0], key, at[0], j);
      }
    }

    /** Every node is at the bottom level. */
    lemma {:induction false} InBottom(l: nat, n: Node)
      requires Valid() && l < MAX_HEIGHT && n in levels[l]
      ensures n in levels[0]
    {
      if l > 0 {
        assert Nested(l);
        InBottom(l - 1, n);
      }
    }

    lemma KeyIsNew(key: IKey)
      requires Valid() && forall n :: n in levels[0] ==> n.key != key
      ensures forall l, n :: 0 <= l < MAX_HEIGHT && n in levels[l] ==> n.key != key && n in nodes
    {
      forall l, n | 0 <= l < MAX_HEIGHT && n in levels[l]
        ensures n.key != key && n in nodes
      {
        assert Linked(l);
        InBottom(l, n);
      }
    }

    /** Links do not depend on the height, nor on nodes not linked yet. */
    twostate lemma SameLinks()
      requires old(Valid()) && levels == old(levels) && nodes >= old(nodes) && forall n :: n in old(nodes) ==> n.next == old(n.next)
      ensures forall l :: 0 <= l < MAX_HEIGHT ==> Linked(l) && Nested(l)
    {
      forall l | 0 <= l < MAX_HEIGHT
        ensures Linked(l) && Nested(l)
      {
        assert old(Linked(l) && Nested(l));
        forall i | 0 <= i <= |levels[l]|
          ensures LeadsOn(levels[l], l, i)
        {
          assert old(LeadsOn(levels[l], l, i));
        }
      }
    }

    /** A new node, not linked anywhere yet. */
    method NewNode(key: IKey, height: nat) returns (x: Node)
      requires Valid()
      modifies this`nodes
      ensures Valid() && fresh(x) && x.key == key && |x.next| == height && nodes == old(nodes) + {x}
      ensures forall l :: 0 <= l < MAX_HEIGHT ==> x !in levels[l]
    {
      forall l, n | 0 <= l < MAX_HEIGHT && n in levels[l]
        ensures n in nodes
      {
        assert Linked(l);
      }
      x := new Node(key, height);
      nodes := nodes + {x};
      SameLinks();
    }

    /** max_height_ grows if need be; new levels start at the head. */
    method Raise(height: nat, key: IKey, prev0: seq<Node>, ghost at0: seq<nat>) returns (prev: seq<Node>, ghost at: seq<nat>)
      requires Valid() && height <= MAX_HEIGHT && |prev0| == |at0| == MAX_HEIGHT
      requires forall l :: 0 <= l < maxHeight ==> Splits(levels[l], key, at0[l]) && prev0[l] == Before(l, at0[l])
      modifies this`maxHeight
      ensures Valid() && maxHeight == if height > old(maxHeight) then height else old(maxHeight)
      ensures |prev| == |at| == MAX_HEIGHT
      ensures forall l :: 0 <= l < maxHeight ==> Splits(levels[l], key, at[l]) && prev[l] == Before(l, at[l])
    {
      prev, at := prev0, at0;
      if height > maxHeight {
        for i := maxHeight to height
          invariant |prev| == |at| == MAX_HEIGHT
          invariant forall l :: 0 <= l < i ==> Splits(levels[l], key, at[l]) && prev[l] == Before(l, at[l])
        {
          prev, at := prev[i := head], at[i := 0];
        }
        maxHeight := height;
        SameLinks();
      }
    }

    /** Between two rounds: the first `i` of the levels `was` have `x` at its place now, the others are as they were. */
    ghost predicate Pending(x: Node, prev: seq<Node>, at: seq<nat>, was: seq<seq<Node>>, now: seq<seq<Node>>, height: nat, i: nat)
    {
      && |now| == |was| == |prev| == |at| == MAX_HEIGHT && i <= height <= MAX_HEIGHT
      && (forall l :: 0 <= l < height ==> Splits(was[l], x.key, at[l]) && prev[l] == NodeBefore(was[l], at[l]))
      && (forall l :: 0 <= l < i ==> now[l] == Inserted(was[l], at[l], x) && x in now[l])
      && (forall l :: i <= l < MAX_HEIGHT ==> now[l] == was[l] && x !in was[l] && forall n :: n in was[l] ==> n.key != x.key)
    }

    /** What a round of the loop may rely on. */
    lemma PendingParts(x: Node, prev: seq<Node>, at: seq<nat>, was: seq<seq<Node>>, height: nat, i: nat)
      requires Pending(x, prev, at, was, levels, height, i) && i < height
      ensures |levels| == |prev| == |at| == MAX_HEIGHT
      ensures Splits(levels[i], x.key, at[i]) && prev[i] == Before(i, at[i]) && x !in levels[i]
      ensures forall n :: n in levels[i] ==> n.key != x.key
      ensures 0 < i ==> x in levels[i - 1]
    {
    }

    lemma PendingNext(x: Node, prev: seq<Node>, at: seq<nat>, was: seq<seq<Node>>, now: seq<seq<Node>>, now': seq<seq<Node>>, height: nat, i: nat)
      requires Pending(x, prev, at, was, now, height, i) && i < height
      requires now' == now[i := Inserted(now[i], at[i], x)] && x in now'[i]
      ensures Pending(x, prev, at, was, now', height, i + 1)
    {
    }

    method LinkAt(x: Node, prev: seq<Node>, ghost at: seq<nat>, ghost was: seq<seq<Node>>, ghost height: nat, i: nat)
      requires Valid() && Pending(x, prev, at, was, levels, height, i)
      requires i < height == |x.next| && height <= maxHeight && x in nodes && x != head
      modifies this`levels, nodes
      ensures Valid() && Pending(x, prev, at, was, levels, height, i + 1) && |x.next| == height
    {
      hide Valid, Pending, Inserted, Splits;
      PendingParts(x, prev, at, was, height, i);
      MaxHeightBound();
      Step(i, at[i]);
      ghost var now := levels;
      Link(x, prev[i], i, at[i]);
      PendingNext(x, prev, at, was, now, levels, height, i);
    }

    lemma MaxHeightBound()
      requires Valid()
      ensures 1 <= maxHeight <= MAX_HEIGHT == |levels| && head in nodes
    {
    }

    /** Before the first round. */
    lemma NothingLinked(x: Node, prev: seq<Node>, at: seq<nat>, height: nat)
      requires |levels| == |prev| == |at| == MAX_HEIGHT && height <= maxHeight <= MAX_HEIGHT
      requires forall l :: 0 <= l < maxHeight ==> Splits(levels[l], x.key, at[l]) && prev[l] == Before(l, at[l])
      requires forall l :: 0 <= l < MAX_HEIGHT ==> x !in levels[l]
      requires forall l, n :: 0 <= l < MAX_HEIGHT && n in levels[l] ==> n.key != x.key
      ensures Pending(x, prev, at, levels, levels, height, 0)
    {
    }

    /** After the last one. */
    lemma AllLinked(x: Node, prev: seq<Node>, at: seq<nat>, was: seq<seq<Node>>, height: nat)
      requires Pending(x, prev, at, was, levels, height, height)
      ensures |at| == |was| == |levels| == MAX_HEIGHT
      ensures forall l :: height <= l < MAX_HEIGHT ==> levels[l] == was[l]
      ensures forall l :: 0 <= l < height ==> Splits(was[l], x.key, at[l]) && levels[l] == Inserted(was[l], at[l], x)
    {
    }

    /** RandomHeight has chosen `height`. */
    method Insert(key: IKey, height: nat) returns (x: Node, ghost at: seq<nat>)
      requires Valid() && 1 <= height <= MAX_HEIGHT
      requires forall n :: n in levels[0] ==> n.key != key
      modifies this, nodes
      ensures Valid() && fresh(x) && x.key == key && nodes == old(nodes) + {x} && |at| == MAX_HEIGHT
      ensures maxHeight == if height > old(maxHeight) then height else old(maxHeight)
      ensures forall l :: height <= l < MAX_HEIGHT ==> levels[l] == old(levels)[l]
      ensures forall l :: 0 <= l < height ==> Splits(old(levels)[l], key, at[l]) && levels[l] == Inserted(old(levels)[l], at[l], x)
    {
      hide Valid, Pending, Inserted, Splits;
      MaxHeightBound();
      KeyIsNew(key);
      var _, prev, at0 := FindGreaterOrEqual(key);
      prev, at := Raise(height, key, prev, at0);
      MaxHeightBound();
      x := NewNode(key, height);
      ghost var was := levels;
      NothingLinked(x, prev, at, height);
      for i := 0 to height
        invariant Valid() && Pending(x, prev, at, was, levels, height, i) && |x.next| == height && x != head
        invariant nodes == old(nodes) + {x} && maxHeight == if height > old(maxHeight) then height else old(maxHeight)
      {
        LinkAt(x, prev, at, was, height, i);
      }
      AllLinked(x, prev, at, was, height);
    }

    /** One round of the linking loop: `x` goes into level `l` after `p`. */
    method Link(x: Node, p: Node, l: nat, ghost i: nat)
      requires Valid() && l < maxHeight && x in nodes && x != head && l < |x.next| && x !in levels[l]
      requires l > 0 ==> x in levels[l - 1]
      requires Splits(levels[l], x.key, i) && p == Before(l, i)
      requires forall n :: n in levels[l] ==> n.key != x.key
      modifies this`levels, x, p
      ensures Valid() && levels == old(levels)[l := Inserted(old(levels)[l], i, x)] && x in levels[l]
      ensures |x.next| == |old(x.next)|
    {
      Step(l, i);
      ghost var was := levels[l];
      assert Linked(l);
      InsertedSorted(was, i, x);
      x.next := x.next[l := p.next[l]];
      p.next := p.next[l := x];
      levels := levels[l := Inserted(was, i, x)];
      forall k | 0 <= k <= |was| && k != i
        ensures LeadsOn(was, l, k)
      {
        assert old(LeadsOn(was, l, k));
        if k < i { SameNode(was, k, i); } else { SameNode(was, i, k); }
      }
      ThisLevel(x, p, was, l, i);
      OtherLevels(l);
      forall m | 0 <= m < MAX_HEIGHT
        ensures Nested(m)
      {
        assert old(Nested(m));
      }
    }

    /** Links at other levels are as they were. */
    twostate lemma OtherLevels(l: nat)
      requires old(Valid()) && |levels| == |old(levels)| && nodes == old(nodes)
      requires forall m :: 0 <= m < MAX_HEIGHT && m != l ==> levels[m] == old(levels)[m]
      requires forall n :: n in nodes ==> |n.next| == |old(n.next)| && forall m :: 0 <= m < |n.next| && m != l ==> n.next[m] == old(n.next)[m]
      ensures forall m :: 0 <= m < MAX_HEIGHT && m != l ==> Linked(m)
    {
      forall m | 0 <= m < MAX_HEIGHT && m != l
        ensures Linked(m)
      {
        assert old(Linked(m));
        forall k | 0 <= k <= |levels[m]|
          ensures LeadsOn(levels[m], m, k)
        {
          assert old(LeadsOn(levels[m], m, k));
        }
      }
    }

    /** At this level the links now lead over `x`. */
    lemma ThisLevel(x: Node, p: Node, was: seq<Node>, l: nat, i: nat)
      requires l < |levels| && x in nodes && x != head && i <= |was| && p in nodes
      requires levels[l] == Inserted(was, i, x) && NodesSorted(levels[l])
      requires p == NodeBefore(was, i) && forall n :: n in was ==> n in nodes && n != head
      requires l < |x.next| && x.next[l] == NodeAt(was, i)
      requires l < |p.next| && p.next[l] == x
      requires forall k :: 0 <= k <= |was| && k != i ==> LeadsOn(was, l, k)
      ensures Linked(l)
    {
      var list := levels[l];
      forall k | 0 <= k <= |list|
        ensures LeadsOn(list, l, k)
      {
        if k < i {
          assert LeadsOn(was, l, k);
          assert NodeBefore(list, k) == NodeBefore(was, k) && NodeAt(list, k) == NodeAt(was, k);
        } else if k > i + 1 {
          assert LeadsOn(was, l, k - 1);
          assert NodeBefore(list, k) == NodeBefore(was, k - 1) && NodeAt(list, k) == NodeAt(was, k - 1);
        }
      }
      assert was == was[..i] + was[i..];
    }

    /** Nodes of a level are distinct. */
    lemma SameNode(level: seq<Node>, j: nat, k: nat)
      requires NodesSorted(level) && j < k <= |level| && head !in level
      ensures NodeBefore(level, j) != NodeBefore(level, k)
    {
      if j > 0 {
        assert ILess(level[j - 1].key, level[k - 1].key);
        IOrder(level[j - 1].key, level[j - 1].key, level[j - 1].key);
      }
    }
  }

  /** A new key where it splits a level. */
  lemma InsertedSorted(level: seq<Node>, i: nat, x: Node)
    requires NodesSorted(level) && Splits(level, x.key, i) && forall n :: n in level ==> n.key != x.key
    ensures NodesSorted(Inserted(level, i, x))
    ensures forall n :: n in Inserted(level, i, x) <==> n in level || n == x
  {
    var r := Inserted(level, i, x);
    forall j, k | 0 <= j < k < |r|
      ensures ILess(r[j].key, r[k].key)
    {
      if j == i {
        assert level[k - 1] in level;
        IOrder(x.key, level[k - 1].key, x.key);
      } else if k == i {
      } else {
        assert ILess(level[if j < i then j else j - 1].key, level[if k < i then k else k - 1].key);
      }
    }
    assert level == level[..i] + level[i..];
  }

  // ------------------------------------------------------------------ readers without locks

  /** What a reader may see at some moment: the keys at each level, and the height. */
  datatype Shared = Shared(levels: seq<seq<IKey>>, maxHeight: nat)

  ghost predicate KeysSorted(list: seq<IKey>)
  {
    forall i, j :: 0 <= i < j < |list| ==> ILess(list[i], list[j])
  }

  ghost predicate SharedOk(s: Shared)
  {
    && |s.levels| == MAX_HEIGHT && 1 <= s.maxHeight <= MAX_HEIGHT
    && (forall l :: 0 <= l < MAX_HEIGHT ==> KeysSorted(s.levels[l]))
    && (forall l :: 1 <= l < MAX_HEIGHT ==> KeysNested(s.levels[l - 1], s.levels[l]))
  }

  ghost predicate KeysNested(lower: seq<IKey>, upper: seq<IKey>)
  {
    forall k :: k in upper ==> k in lower
  }

  /** One link of Insert: a key enters a level, bottom up. */
  ghost predicate LinkStep(s: Shared, s': Shared, l: nat, i: nat, key: IKey)
    requires SharedOk(s)
  {
    && l < MAX_HEIGHT && i <= |s.levels[l]| && (l > 0 ==> key in s.levels[l - 1])
    && (forall j :: 0 <= j < i ==> ILess(s.levels[l][j], key))
    && (forall j :: i <= j < |s.levels[l]| ==> ILess(key, s.levels[l][j]))
    && s' == s.(levels := s.levels[l := s.levels[l][..i] + [key] + s.levels[l][i..]])
  }

  ghost predicate WriterStep(s: Shared, s': Shared)
    requires SharedOk(s)
  {
    || (exists l, i, key :: LinkStep(s, s', l, i, key))
    || (exists h :: s.maxHeight <= h <= MAX_HEIGHT && s' == s.(maxHeight := h))
  }

  /** A reader in FindGreaterOrEqual: at level `level` behind node `x` (None: the head), or done. */
  datatype Reader = Searching(level: nat, x: Option<IKey>) | Done(result: Option<IKey>)

  /** The node after `x` at a level. */
  function NextOf(list: seq<IKey>, x: Option<IKey>): Option<IKey>
  {
    if list == [] then None
    else if x.None? then Some(list[0])
    else if list[0] == x.value then (if |list| == 1 then None else Some(list[1]))
    else NextOf(list[1..], x)
  }

  /** One round of the search loop reads one link. */
  ghost predicate ReaderStep(s: Shared, key: IKey, r: Reader, r': Reader)
    requires SharedOk(s)
  {
    && r.Searching? && r.level < MAX_HEIGHT
    && var next := NextOf(s.levels[r.level], r.x);
       if next.Some? && ILess(next.value, key) then r' == r.(x := next)
       else if r.level == 0 then r' == Done(next)
       else r' == r.(level := r.level - 1)
  }

  /** The first key of a level at or after `key`. */
  function FirstFrom(list: seq<IKey>, key: IKey): Option<IKey>
  {
    if list == [] then None else if !ILess(list[0], key) then Some(list[0]) else FirstFrom(list[1..], key)
  }

  ghost predicate ReaderOk(s: Shared, key: IKey, r: Reader)
    requires SharedOk(s)
  {
    r.Searching? ==> r.level < MAX_HEIGHT && (r.x.Some? ==> r.x.value in s.levels[r.level] && ILess(r.x.value, key))
  }

  lemma KeysInserted(list: seq<IKey>, i: nat, key: IKey)
    requires KeysSorted(list) && i <= |list|
    requires forall j :: 0 <= j < i ==> ILess(list[j], key)
    requires forall j :: i <= j < |list| ==> ILess(key, list[j])
    ensures KeysSorted(list[..i] + [key] + list[i..])
    ensures forall k :: k in list[..i] + [key] + list[i..] <==> k in list || k == key
  {
    var more := list[..i] + [key] + list[i..];
    assert list == list[..i] + list[i..];
    forall a, b | 0 <= a < b < |more|
      ensures ILess(more[a], more[b])
    {
      if a < i < b { assert ILess(list[a], list[b - 1]); }
    }
  }

  lemma WriterKeeps(s: Shared, s': Shared, key: IKey, r: Reader)
    requires SharedOk(s) && WriterStep(s, s') && ReaderOk(s, key, r)
    ensures SharedOk(s') && ReaderOk(s', key, r)
    ensures forall k :: k in s.levels[0] ==> k in s'.levels[0]
  {
    if l: nat, i: nat, k :| LinkStep(s, s', l, i, k) {
      KeysInserted(s.levels[l], i, k);
      forall m | 1 <= m < MAX_HEIGHT
        ensures KeysNested(s'.levels[m - 1], s'.levels[m])
      {
        assert KeysNested(s.levels[m - 1], s.levels[m]);
      }
    }
  }

  lemma {:induction false} NextIsIn(list: seq<IKey>, x: Option<IKey>)
    ensures NextOf(list, x).Some? ==> NextOf(list, x).value in list
  {
    if list != [] && x.Some? && list[0] != x.value {
      NextIsIn(list[1..], x);
      assert forall k :: k in list[1..] ==> k in list;
    }
  }

  lemma ReaderKeeps(s: Shared, key: IKey, r: Reader, r': Reader)
    requires SharedOk(s) && ReaderOk(s, key, r) && ReaderStep(s, key, r, r')
    ensures ReaderOk(s, key, r')
    ensures r'.Done? ==> r'.result == FirstFrom(s.levels[0], key)
  {
    NextIsIn(s.levels[r.level], r.x);
    if r'.Done? {
      NextIsFirst(s.levels[0], r.x, key);
    }
  }

  /** Behind `x` with nothing more before `key`: the next node is the first from `key` on. */
  lemma {:induction false} NextIsFirst(list: seq<IKey>, x: Option<IKey>, key: IKey)
    requires KeysSorted(list) && (x.Some? ==> x.value in list && ILess(x.value, key))
    requires NextOf(list, x).Some? ==> !ILess(NextOf(list, x).value, key)
    ensures NextOf(list, x) == FirstFrom(list, key)
  {
    if list != [] && x.Some? {
      if list[0] == x.value {
        assert |list| > 1 ==> list[1..][0] == list[1];
      } else {
        var i :| 0 <= i < |list| && list[i] == x.value;
        assert ILess(list[0], list[i]);
        IOrder(list[0], x.value, key);
        assert list[1..][i - 1] == x.value;
        NextIsFirst(list[1..], x, key);
      }
    }
  }

  lemma {:induction false} FirstFromIs(list: seq<IKey>, key: IKey)
    requires KeysSorted(list)
    ensures forall k :: k in list && !ILess(k, key) ==> FirstFrom(list, key).Some? && !ILess(k, FirstFrom(list, key).value)
    ensures FirstFrom(list, key).Some? ==> FirstFrom(list, key).value in list && !ILess(FirstFrom(list, key).value, key)
  {
    if list != [] {
      FirstFromIs(list[1..], key);
      forall k | k in list && k != list[0]
        ensures k in list[1..] && ILess(list[0], k)
      {
        var i :| 0 <= i < |list| && list[i] == k;
        assert list[1..][i - 1] == k;
      }
      if !ILess(list[0], key) {
        forall k | k in list ensures !ILess(k, list[0]) { IOrder(k, list[0], list[0]); }
      }
    }
  }

  datatype Moment = Moment(shared: Shared, reader: Reader)

  /** A search for `key` from some height on, interleaved with link steps of inserts in any way. */
  ghost predicate SearchRun(run: seq<Moment>, key: IKey)
  {
    && run != [] && SharedOk(run[0].shared)
    && run[0].reader.Searching? && run[0].reader.level < MAX_HEIGHT && run[0].reader.x == None
    && forall i :: 0 <= i < |run| - 1 ==> SharedOk(run[i].shared) && MomentStep(run[i], run[i + 1], key)
  }

  ghost predicate MomentStep(m: Moment, m': Moment, key: IKey)
    requires SharedOk(m.shared)
  {
    || (WriterStep(m.shared, m'.shared) && m'.reader == m.reader)
    || (ReaderStep(m.shared, key, m.reader, m'.reader) && m'.shared == m.shared)
  }

  lemma {:induction false} RunKeeps(run: seq<Moment>, key: IKey, n: nat)
    requires SearchRun(run, key) && n < |run|
    ensures SharedOk(run[n].shared) && ReaderOk(run[n].shared, key, run[n].reader)
    ensures forall k :: k in run[0].shared.levels[0] ==> k in run[n].shared.levels[0]
    ensures run[n].reader.Done? ==> exists i :: 0 <= i < n && SharedOk(run[i].shared) && run[n].reader.result == FirstFrom(run[i].shared.levels[0], key)
  {
    if n > 0 {
      RunKeeps(run, key, n - 1);
      var m, m' := run[n - 1], run[n];
      assert MomentStep(m, m', key);
      if WriterStep(m.shared, m'.shared) && m'.reader == m.reader {
        WriterKeeps(m.shared, m'.shared, key, m.reader);
      } else {
        ReaderKeeps(m.shared, key, m.reader, m'.reader);
        assert m'.reader.Done? ==> run[n].reader.result == FirstFrom(run[n - 1].shared.levels[0], key);
      }
    }
  }

  /**
   * A search that runs while keys are inserted returns what an instantaneous search would have
   * returned at some moment of the run: a node at or after `key`, and none later than any such
   * node that was there when the search began.
   */
  lemma SearchIsLinearizable(run: seq<Moment>, key: IKey)
    requires SearchRun(run, key) && run[|run| - 1].reader.Done?
    ensures var result := run[|run| - 1].reader.result;
            && (exists i :: 0 <= i < |run| && SharedOk(run[i].shared) && result == FirstFrom(run[i].shared.levels[0], key))
            && (result.Some? ==> !ILess(result.value, key))
            && forall k :: k in run[0].shared.levels[0] && !ILess(k, key) ==> result.Some? && !ILess(k, result.value)
  {
    var n := |run| - 1;
    RunKeeps(run, key, n);
    var i :| 0 <= i < n && SharedOk(run[i].shared) && run[n].reader.result == FirstFrom(run[i].shared.levels[0], key);
    RunKeeps(run, key, i);
    FirstFromIs(run[i].shared.levels[0], key);
  }

  // ------------------------------------------------------------------ the links of Insert are such steps

  function KeysOf(level: seq<Node>): (r: seq<IKey>)
    ensures |r| == |level| && forall i :: 0 <= i < |r| ==> r[i] == level[i].key
  {
    seq(|level|, i requires 0 <= i < |level| => level[i].key)
  }

  ghost function ViewOf(levels: seq<seq<Node>>, maxHeight: nat): (s: Shared)
    ensures |s.levels| == |levels| && forall l :: 0 <= l < |levels| ==> s.levels[l] == KeysOf(levels[l])
  {
    Shared(seq(|levels|, l requires 0 <= l < |levels| => KeysOf(levels[l])), maxHeight)
  }

  /** What readers see of a list is in order, also between two links of an insert. */
  lemma ViewIsOk(list: SkipList)
    requires list.Valid()
    ensures SharedOk(ViewOf(list.levels, list.maxHeight))
  {
    var s := ViewOf(list.levels, list.maxHeight);
    forall l | 0 <= l < MAX_HEIGHT
      ensures KeysSorted(s.levels[l])
    {
      assert list.Linked(l);
    }
    forall l | 1 <= l < MAX_HEIGHT
      ensures KeysNested(s.levels[l - 1], s.levels[l])
    {
      assert list.Nested(l);
      forall k | k in s.levels[l]
        ensures k in s.levels[l - 1]
      {
        var i :| 0 <= i < |s.levels[l]| && s.levels[l][i] == k;
        var n, lower := list.levels[l][i], list.levels[l - 1];
        assert n in list.levels[l] && n in lower;
        var j :| 0 <= j < |lower| && lower[j] == n;
        assert s.levels[l - 1][j] == k;
      }
    }
  }

  /** SkipList.Link changes what readers see by one link step. */
  lemma LinkIsStep(levels: seq<seq<Node>>, maxHeight: nat, l: nat, i: nat, x: Node)
    requires SharedOk(ViewOf(levels, maxHeight)) && l < MAX_HEIGHT && Splits(levels[l], x.key, i)
    requires (l > 0 ==> x in levels[l - 1]) && forall n :: n in levels[l] ==> n.key != x.key
    ensures LinkStep(ViewOf(levels, maxHeight), ViewOf(levels[l := Inserted(levels[l], i, x)], maxHeight), l, i, x.key)
  {
    var s, after := ViewOf(levels, maxHeight), levels[l := Inserted(levels[l], i, x)];
    var s' := ViewOf(after, maxHeight);
    forall j | i <= j < |levels[l]|
      ensures ILess(x.key, s.levels[l][j])
    {
      assert levels[l][j] in levels[l];
      IOrder(x.key, levels[l][j].key, x.key);
    }
    if l > 0 {
      var j :| 0 <= j < |levels[l - 1]| && levels[l - 1][j] == x;
      assert s.levels[l - 1][j] == x.key;
    }
    var keys := s.levels[l];
    assert s'.levels[l] == KeysOf(Inserted(levels[l], i, x));
    assert KeysOf(Inserted(levels[l], i, x)) == keys[..i] + [x.key] + keys[i..];
    assert s'.levels == s.levels[l := keys[..i] + [x.key] + keys[i..]];
  }
}
