/** One shard of the LRU cache (util/cache.cc). */
module Caching {
  import opened Bytes

  class LRUHandle {
    const key: Slice
    const value: nat
    const charge: nat
    var refs: nat
    var inCache: bool
    /** How often the deleter has been called. */
    ghost var deletions: nat

    constructor (key: Slice, value: nat, charge: nat)
      ensures this.key == key && this.value == value && this.charge == charge
      ensures refs == 1 && !inCache && deletions == 0
    {
      this.key, this.value, this.charge := key, value, charge;
      refs, inCache, deletions := 1, false, 0;
    }
  }

  // ------------------------------------------------------------------ lists

  function Without(s: seq<LRUHandle>, e: LRUHandle): (r: seq<LRUHandle>)
    ensures forall x :: x in r ==> x in s && x != e
    ensures forall x :: x in s && x != e ==> x in r
  {
    if s == [] then [] else
      var n := |s| - 1;
      assert s == s[..n] + [s[n]];
      Without(s[..n], e) + if s[n] == e then [] else [s[n]]
  }

  function Charges(s: seq<LRUHandle>): nat
  {
    if s == [] then 0 else Charges(s[..|s| - 1]) + s[|s| - 1].charge
  }

  ghost predicate NoDuplicates(s: seq<LRUHandle>)
  {
    forall i, j :: 0 <= i < j < |s| ==> s[i] != s[j]
  }

  lemma {:induction false} WithoutNone(s: seq<LRUHandle>, e: LRUHandle)
    requires e !in s
    ensures Without(s, e) == s
  {
    if s != [] {
      var n := |s| - 1;
      assert s == s[..n] + [s[n]];
      WithoutNone(s[..n], e);
    }
  }

  lemma LastStep(s: seq<LRUHandle>, e: LRUHandle)
    requires s != []
    ensures var t, x := s[..|s| - 1], s[|s| - 1];
            && s == t + [x] && Charges(s) == Charges(t) + x.charge
            && Without(s, e) == if x == e then Without(t, e) else Without(t, e) + [x]
  {
  }

  lemma NoDuplicatesPrefix(s: seq<LRUHandle>)
    requires NoDuplicates(s) && s != []
    ensures NoDuplicates(s[..|s| - 1]) && s[|s| - 1] !in s[..|s| - 1]
  {
    assert forall i :: 0 <= i < |s| - 1 ==> s[..|s| - 1][i] == s[i] && s[i] != s[|s| - 1];
  }

  lemma {:induction false} WithoutIs(s: seq<LRUHandle>, e: LRUHandle)
    requires NoDuplicates(s)
    ensures NoDuplicates(Without(s, e))
    ensures Charges(Without(s, e)) == Charges(s) - if e in s then e.charge else 0
    ensures e !in s ==> Without(s, e) == s
  {
    hide Without, Charges, NoDuplicates;
    if e !in s {
      WithoutNone(s, e);
    } else {
      var t, x := s[..|s| - 1], s[|s| - 1];
      NoDuplicatesPrefix(s);
      LastStep(s, e);
      if x == e {
        WithoutNone(t, e);
      } else {
        WithoutIs(t, e);
        AppendIs(Without(t, e), x);
      }
    }
  }

  lemma {:induction false} WithoutFirst(s: seq<LRUHandle>)
    requires NoDuplicates(s) && s != []
    ensures Without(s, s[0]) == s[1..]
  {
    hide Without, Charges, NoDuplicates;
    var t, x := s[..|s| - 1], s[|s| - 1];
    NoDuplicatesPrefix(s);
    LastStep(s, s[0]);
    if t == [] {
      WithoutNone(t, x);
    } else {
      WithoutFirst(t);
      assert s[0] == t[0];
      assert t[1..] + [x] == s[1..];
    }
  }

  lemma AppendIs(s: seq<LRUHandle>, e: LRUHandle)
    requires NoDuplicates(s) && e !in s
    ensures NoDuplicates(s + [e]) && Charges(s + [e]) == Charges(s) + e.charge
  {
    assert (s + [e])[..|s|] == s;
  }

  class LRUCache {
    const capacity: nat
    var usage: nat
    /** Oldest first. */
    var lru: seq<LRUHandle>
    var inUse: seq<LRUHandle>
    var table: map<Slice, LRUHandle>
    /** The handles clients have got and not released, and the handles not yet freed. */
    ghost var clients: multiset<LRUHandle>
    ghost var live: set<LRUHandle>

    predicate InTable(e: LRUHandle)
      reads this
    {
      e.key in table && table[e.key] == e
    }

    /** References are counted, and the lists sort the cached handles by whether a client has them. */
    ghost predicate Counted(e: LRUHandle)
      reads this, e
    {
      && e.refs == clients[e] + (if e.inCache then 1 else 0) && e.refs > 0 && e.deletions == 0
      && (e in lru <==> e.inCache && e.refs == 1)
      && (e in inUse <==> e.inCache && e.refs >= 2)
    }

    /** What is held, listed or in the table is live. */
    ghost predicate Members()
      reads this
    {
      && (forall e :: e in clients ==> e in live)
      && (forall e :: e in lru ==> e in live) && (forall e :: e in inUse ==> e in live)
      && (forall k :: k in table ==> table[k] in live && table[k].key == k)
    }

    ghost predicate Sums()
      reads this
    {
      NoDuplicates(lru) && NoDuplicates(inUse) && usage == Charges(lru) + Charges(inUse)
    }

    ghost predicate ListsOk()
      reads this
    {
      Members() && Sums()
    }

    /** Handle `e` has been handed out, given back or freed. */
    twostate lemma MembersMove(e: LRUHandle)
      requires old(Members()) && table == old(table) && e in old(live)
      requires forall x :: x in clients ==> x in old(clients) || x == e
      requires forall x :: x in lru ==> x in old(lru) || x == e
      requires forall x :: x in inUse ==> x in old(inUse) || x == e
      requires live == old(live) || (live == old(live) - {e} && e !in clients && e !in lru && e !in inUse && forall k :: k in table ==> table[k] != e)
      ensures Members()
    {
    }

    /** All handles but `e` are in order, and so is `e` if it is still live. */
    lemma ValidNow(e: LRUHandle)
      requires Members() && Sums() && forall x :: x in live && x != e ==> Counted(x) && (x.inCache <==> InTable(x))
      requires e in live ==> Counted(e) && (e.inCache <==> InTable(e))
      ensures Valid()
    {
    }

    lemma ValidParts(e: LRUHandle)
      requires Valid() || ValidBut(e)
      ensures Members() && Sums()
      ensures e in clients || e in lru || e in inUse || ValidBut(e) ==> e in live
      ensures e in live ==> Counted(e)
      ensures Valid() && e in live ==> (e.inCache <==> InTable(e))
    {
    }

    ghost predicate Valid()
      reads this, live
    {
      ListsOk() && forall e :: e in live ==> Counted(e) && (e.inCache <==> InTable(e))
    }

    /** Valid, but for a cached handle `d` that has just left the table. */
    ghost predicate ValidBut(d: LRUHandle)
      reads this, live
    {
      && ListsOk() && d in live && d.inCache && !InTable(d)
      && (forall e :: e in live ==> Counted(e) && (e != d ==> (e.inCache <==> InTable(e))))
    }

    constructor (capacity: nat)
      ensures Valid() && this.capacity == capacity && table == map[] && clients == multiset{} && live == {} && lru == []
    {
      this.capacity := capacity;
      usage, lru, inUse, table, clients, live := 0, [], [], map[], multiset{}, {};
    }

    method Ref(e: LRUHandle)
      modifies this`lru, this`inUse, e`refs
      ensures e.refs == old(e.refs) + 1
      ensures lru == if old(e.refs) == 1 && e.inCache then Without(old(lru), e) else old(lru)
      ensures inUse == if old(e.refs) == 1 && e.inCache then Without(old(inUse), e) + [e] else old(inUse)
    {
      if e.refs == 1 && e.inCache {
        Unlink(e);
        inUse := inUse + [e];
      }
      e.refs := e.refs + 1;
    }

    method Unref(e: LRUHandle)
      requires e.refs > 0 && (e.refs == 1 ==> !e.inCache)
      modifies this`lru, this`inUse, this`live, e`refs, e`deletions
      ensures e.refs == old(e.refs) - 1
      ensures e.deletions == old(e.deletions) + if e.refs == 0 then 1 else 0
      ensures live == if e.refs == 0 then old(live) - {e} else old(live)
      ensures lru == if e.refs == 1 && e.inCache then Without(old(lru), e) + [e] else old(lru)
      ensures inUse == if e.refs == 1 && e.inCache then Without(old(inUse), e) else old(inUse)
    {
      e.refs := e.refs - 1;
      if e.refs == 0 {
        e.deletions := e.deletions + 1;
        live := live - {e};
      } else if e.inCache && e.refs == 1 {
        Unlink(e);
        lru := lru + [e];
      }
    }

    /** LRU_Remove: out of whichever list the handle is in. */
    method Unlink(e: LRUHandle)
      modifies this`lru, this`inUse
      ensures lru == Without(old(lru), e) && inUse == Without(old(inUse), e)
    {
      lru, inUse := Without(lru, e), Without(inUse, e);
    }

    method Lookup(key: Slice) returns (e: LRUHandle?)
      requires Valid()
      modifies this, live
      ensures Valid() && live == old(live) && table == old(table) && usage == old(usage)
      ensures e == if key in table then table[key] else null
      ensures clients == old(clients) + if e == null then multiset{} else multiset{e}
      ensures lru == if e == null then old(lru) else Without(old(lru), e)
    {
      hide Without, Charges, NoDuplicates, Valid, ListsOk, Members, Counted, InTable;
      e := if key in table then table[key] else null;
      if e != null {
        Cached(key);
        ValidParts(e);
        CountedMeans(e);
        WithoutIs(lru, e);
        WithoutIs(inUse, e);
        AppendIs(Without(inUse, e), e);
        Ref(e);
        clients := clients + multiset{e};
        MembersMove(e);
        CountedMeans(e);
        SameTable(e);
        Others(e);
        ValidNow(e);
      }
    }

    lemma Cached(key: Slice)
      requires Valid() && key in table
      ensures table[key] in live && table[key].key == key && InTable(table[key])
    {
    }

    method Release(e: LRUHandle)
      requires Valid() && e in clients
      modifies this, live
      ensures Valid() && table == old(table) && usage == old(usage)
      ensures clients == old(clients) - multiset{e}
      ensures if e !in clients && !old(e.inCache) then live == old(live) - {e} && e.deletions == 1 else live == old(live)
      ensures lru == if e !in clients && old(e.inCache) then old(lru) + [e] else old(lru)
    {
      hide Without, Charges, NoDuplicates, Valid, ListsOk, Members, Counted, InTable;
      ValidParts(e);
      CountedMeans(e);
      WithoutIs(lru, e);
      WithoutIs(inUse, e);
      if e.inCache && e.refs == 2 { AppendIs(lru, e); }
      Unref(e);
      clients := clients - multiset{e};
      CountedMeans(e);
      SameTable(e);
      TableKeys(e);
      NotInTable(e);
      MembersMove(e);
      Others(e);
      ValidNow(e);
    }

    lemma TableKeys(e: LRUHandle)
      ensures InTable(e) ==> e.key in table && table[e.key] == e
    {
    }

    lemma CountedMeans(e: LRUHandle)
      ensures Counted(e) <==>
                && e.refs == clients[e] + (if e.inCache then 1 else 0) && e.refs > 0 && e.deletions == 0
                && (e in lru <==> e.inCache && e.refs == 1)
                && (e in inUse <==> e.inCache && e.refs >= 2)
    {
    }

    lemma NotInTable(e: LRUHandle)
      ensures !InTable(e) ==> forall k :: k in table && table[k].key == k ==> table[k] != e
    {
    }

    twostate lemma SameTable(e: LRUHandle)
      requires table == old(table)
      ensures InTable(e) == old(InTable(e))
    {
    }

    /** A step on handle `e` leaves all other handles as they are. */
    twostate lemma Others(e: LRUHandle)
      requires old(Valid() || ValidBut(e)) && live <= old(live) && table == old(table)
      requires forall x :: x in live && x != e ==>
                 && x.refs == old(x.refs) && x.inCache == old(x.inCache) && x.deletions == old(x.deletions)
                 && clients[x] == old(clients[x]) && (x in lru <==> x in old(lru)) && (x in inUse <==> x in old(inUse))
      ensures forall x :: x in live && x != e ==> Counted(x) && (x.inCache <==> InTable(x))
    {
      forall x | x in live && x != e
        ensures Counted(x) && (x.inCache <==> InTable(x))
      {
        assert old(Counted(x));
      }
    }

    twostate lemma LeftTable(d: LRUHandle)
      requires old(Valid()) && d in live && old(InTable(d)) && table == old(table) - {d.key}
      requires lru == old(lru) && inUse == old(inUse) && clients == old(clients) && live == old(live) && usage == old(usage)
      requires forall x :: x in live ==> x.refs == old(x.refs) && x.inCache == old(x.inCache) && x.deletions == old(x.deletions)
      ensures ValidBut(d)
    {
      hide Charges, NoDuplicates;
      forall x | x in live
        ensures Counted(x) && (x != d ==> (x.inCache <==> InTable(x)))
      {
        assert old(Counted(x));
      }
    }

    /** FinishErase: the table has let go of `d`. */
    method FinishErase(d: LRUHandle)
      requires ValidBut(d)
      modifies this`usage, this`lru, this`inUse, this`live, d`refs, d`inCache, d`deletions
      ensures Valid() && usage == old(usage) - d.charge && lru == Without(old(lru), d)
      ensures d.refs == old(d.refs) - 1 && !d.inCache
      ensures if d in clients then live == old(live) else live == old(live) - {d} && d.deletions == 1
    {
      hide Without, Charges, NoDuplicates, Counted, InTable, Valid, ListsOk, Members;
      ValidParts(d);
      CountedMeans(d);
      WithoutIs(lru, d);
      WithoutIs(inUse, d);
      Unlink(d);
      d.inCache := false;
      usage := usage - d.charge;
      Unref(d);
      CountedMeans(d);
      SameTable(d);
      KeysOfTable();
      NotInTable(d);
      MembersMove(d);
      Others(d);
      ValidNow(d);
    }

    lemma KeysOfTable()
      ensures Members() ==> forall k :: k in table ==> table[k].key == k
    {
    }

    /** Freed handles are no client's, and their deleter ran once. */
    ghost predicate FreedOnce(before: set<LRUHandle>)
      reads this, before
    {
      forall x :: x in before && x !in live ==> x.deletions == 1 && x !in clients
    }

    method Erase(key: Slice)
      requires Valid()
      modifies this, live
      ensures Valid() && clients == old(clients) && table == old(table) - {key}
      ensures live <= old(live) && FreedOnce(old(live))
      ensures key !in old(table) ==> lru == old(lru) && usage == old(usage) && live == old(live)
      ensures key in old(table) ==> lru == Without(old(lru), old(table)[key]) && usage == old(usage) - old(table)[key].charge
    {
      hide Without, Charges, NoDuplicates, Valid, Counted;
      if key in table {
        var d := table[key];
        Cached(key);
        table := table - {key};
        LeftTable(d);
        FinishErase(d);
      }
    }

    ghost function Keys(s: seq<LRUHandle>): set<Slice>
    {
      set e | e in s :: e.key
    }

    method EvictOldest()
      requires Valid() && lru != []
      modifies this, live
      ensures Valid() && clients == old(clients) && live <= old(live) && FreedOnce(old(live))
      ensures lru == old(lru)[1..] && table == old(table) - {old(lru)[0].key} && usage == old(usage) - old(lru)[0].charge
    {
      hide Without, Charges, NoDuplicates;
      var oldest := lru[0];
      assert oldest in lru;
      WithoutFirst(lru);
      Erase(oldest.key);
    }

    /** The eviction loop of Insert: the least recently released entries go. */
    method Evict(limit: nat) returns (ghost victims: seq<LRUHandle>)
      requires Valid()
      modifies this, live
      ensures Valid() && clients == old(clients) && live <= old(live) && FreedOnce(old(live))
      ensures old(lru) == victims + lru && table == old(table) - Keys(victims)
      ensures usage == old(usage) - Charges(victims)
      ensures usage <= limit || lru == []
      ensures victims != [] ==> usage + victims[|victims| - 1].charge > limit
    {
      hide Without, NoDuplicates, Valid, Charges;
      victims := [];
      assert Charges(victims) == 0 by { NoCharges(); }
      while usage > limit && lru != []
        invariant Valid() && clients == old(clients) && live <= old(live) && FreedOnce(old(live))
        invariant old(lru) == victims + lru && table == old(table) - Keys(victims)
        invariant usage == old(usage) - Charges(victims)
        invariant victims != [] ==> usage + victims[|victims| - 1].charge > limit
        decreases |lru|
      {
        var oldest := lru[0];
        LastStep(victims + [oldest], oldest);
        assert (victims + [oldest])[..|victims|] == victims;
        assert victims + lru == (victims + [oldest]) + lru[1..];
        EvictOldest();
        victims := victims + [oldest];
      }
    }

    lemma NoCharges()
      ensures Charges([]) == 0
    {
    }

    method Insert(key: Slice, value: nat, charge: nat) returns (e: LRUHandle, ghost victims: seq<LRUHandle>)
      requires Valid()
      modifies this, live
      ensures Valid() && fresh(e) && e.key == key && e.value == value && e.charge == charge
      ensures e in live && clients == old(clients) + multiset{e}
      ensures FreedOnce(old(live))
      ensures (if capacity > 0 && key in old(table) then Without(old(lru), old(table)[key]) else old(lru)) == victims + lru
      ensures table == (if capacity > 0 then old(table)[key := e] else old(table)) - Keys(victims)
      ensures usage <= capacity || lru == []
      ensures victims != [] ==> usage + victims[|victims| - 1].charge > capacity
    {
      hide Without, Charges, NoDuplicates, InTable;
      e := new LRUHandle(key, value, charge);
      AddLive(e);
      if capacity > 0 {
        AddToCache(e);
      }
      victims := Evict(capacity);
    }

    /** The new handle belongs to the caller. */
    method AddLive(e: LRUHandle)
      requires Valid() && e !in live && e.refs == 1 && !e.inCache && e.deletions == 0
      modifies this`live, this`clients
      ensures Valid() && live == old(live) + {e} && clients == old(clients) + multiset{e}
    {
      hide Without, Charges, NoDuplicates;
      live := live + {e};
      clients := clients + multiset{e};
    }

    method AddToCache(e: LRUHandle)
      requires Valid() && e in live && !e.inCache
      modifies this, live
      ensures Valid() && e in live && clients == old(clients) && live <= old(live) && FreedOnce(old(live))
      ensures table == old(table)[e.key := e]
      ensures lru == if e.key in old(table) then Without(old(lru), old(table)[e.key]) else old(lru)
    {
      hide Without, Charges, NoDuplicates, Valid, ValidBut, Counted;
      ValidParts(e);
      CountedMeans(e);
      NotListed(e);
      AppendIs(inUse, e);
      e.refs := e.refs + 1;
      e.inCache := true;
      inUse := inUse + [e];
      usage := usage + e.charge;
      var displaced := if e.key in table then table[e.key] else null;
      table := table[e.key := e];
      Added(e);
      if displaced != null {
        FinishErase(displaced);
      }
    }

    lemma NotListed(e: LRUHandle)
      requires Valid() && e in live && !e.inCache
      ensures e !in inUse && e !in lru && (e.key in table ==> table[e.key] != e)
    {
      CountedMeans(e);
    }

    /** A handle has been put into the table and the in-use list: all but the one it displaced are in order. */
    twostate lemma Added(e: LRUHandle)
      requires old(Valid()) && e in old(live) && !old(e.inCache) && e.inCache && e.refs == old(e.refs) + 1 && e.deletions == old(e.deletions)
      requires lru == old(lru) && inUse == old(inUse) + [e] && table == old(table)[e.key := e]
      requires clients == old(clients) && live == old(live) && Sums()
      requires forall x :: x in live && x != e ==> x.refs == old(x.refs) && x.inCache == old(x.inCache) && x.deletions == old(x.deletions)
      ensures if e.key in old(table) then ValidBut(old(table)[e.key]) else Valid()
    {
      hide NoDuplicates, Charges;
      forall x | x in live
        ensures Counted(x)
      {
        assert old(Counted(x));
      }
      forall x | x in live && !(e.key in old(table) && old(table)[e.key] == x)
        ensures x.inCache <==> InTable(x)
      {
        assert old(Counted(x));
      }
    }

    method Prune()
      requires Valid()
      modifies this, live
      ensures Valid() && lru == [] && clients == old(clients) && FreedOnce(old(live))
      ensures table == old(table) - Keys(old(lru))
    {
      hide Without, NoDuplicates, Counted, InTable, Charges;
      ghost var gone: seq<LRUHandle> := [];
      while lru != []
        invariant Valid() && clients == old(clients) && live <= old(live) && FreedOnce(old(live))
        invariant old(lru) == gone + lru && table == old(table) - Keys(gone)
        decreases |lru|
      {
        ghost var oldest := lru[0];
        assert gone + lru == (gone + [oldest]) + lru[1..];
        EvictOldest();
        gone := gone + [oldest];
      }
      assert gone == old(lru);
    }

    /** The destructor; all handles have been released. */
    method Destroy()
      requires Valid() && inUse == []
      modifies this, live
      ensures forall e :: e in old(table).Values ==> e.deletions == 1
    {
      hide Without, Charges;
      ghost var cached := lru;
      assert forall j :: 0 <= j < |lru| ==> lru[j] in lru && Counted(lru[j]);
      forall e | e in old(table).Values
        ensures e in cached
      {
        var k :| k in table && table[k] == e;
        assert Counted(e);
      }
      for i := 0 to |lru|
        invariant lru == cached && inUse == []
        invariant forall j :: 0 <= j < i ==> lru[j].deletions == 1
        invariant forall j :: i <= j < |lru| ==> lru[j].refs == 1 && lru[j].deletions == 0
      {
        lru[i].inCache := false;
        Unref(lru[i]);
      }
    }
  }
}
