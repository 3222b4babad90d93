/** VersionSet::Builder: applying version edits to a base version (db/version_set.cc). */
module Builder {
  import opened Bytes
  import opened InternalKeys
  import opened Version

  /** The file part of a VersionEdit: (level, number) pairs to delete, (level, table) pairs to add. */
  datatype Edit = Edit(deleted: set<(nat, nat)>, added: seq<(nat, File)>)

  ghost predicate EditOk(e: Edit)
  {
    && (forall d :: d in e.deleted ==> d.0 < NUM_LEVELS)
    && (forall a :: a in e.added ==> a.0 < NUM_LEVELS)
    && (forall a, b :: a in e.added && b in e.added && a.0 == b.0 && a.1.number == b.1.number ==> a == b)
  }

  lemma BeforeOrder(f: File, g: File, h: File)
    ensures !Before(f, f)
    ensures Before(f, g) || Before(g, f) || (f.smallest == g.smallest && f.number == g.number)
    ensures Before(f, g) && Before(g, h) ==> Before(f, h)
    ensures !Before(g, f) && Before(g, h) ==> Before(f, h)
    ensures !(Before(f, g) && Before(g, f))
  {
    IOrder(f.smallest, g.smallest, h.smallest);
  }

  /** std::set::insert: nothing happens when an equivalent table is there. */
  method Insert(files: seq<File>, f: File) returns (r: seq<File>)
    requires InOrder(files)
    ensures InOrder(r)
    ensures forall g :: g in r ==> g in files || g == f
    ensures forall g :: g in files ==> g in r
    ensures f in r || exists g :: g in files && g.smallest == f.smallest && g.number == f.number
  {
    var i := 0;
    while i < |files| && Before(files[i], f)
      invariant i <= |files|
      invariant forall j :: 0 <= j < i ==> Before(files[j], f)
    {
      i := i + 1;
    }
    if i < |files| && !Before(f, files[i]) {
      BeforeOrder(files[i], f, f);
      assert files[i] in files;
      return files;
    }
    r := files[..i] + [f] + files[i..];
    assert files == files[..i] + files[i..];
    forall j | i <= j < |files|
      ensures Before(f, files[j])
    {
      BeforeOrder(f, files[i], files[j]);
    }
  }

  /** What a builder has accumulated, level by level. */
  datatype Changes = Changes(deleted: seq<set<nat>>, added: seq<set<File>>)

  ghost predicate ChangesOk(c: Changes) { |c.deleted| == NUM_LEVELS && |c.added| == NUM_LEVELS }

  ghost function AddedAt(e: Edit, l: nat): set<File> { set a | a in e.added && a.0 == l :: a.1 }

  ghost function DeletedAt(e: Edit, l: nat): set<nat> { set d | d in e.deleted && d.0 == l :: d.1 }

  ghost function Numbers(files: set<File>): set<nat> { set f | f in files :: f.number }

  ghost function NoChanges(): Changes
  {
    Changes(seq(NUM_LEVELS, _ => {}), seq(NUM_LEVELS, _ => {}))
  }

  /** Deletions first; an added table is then no longer deleted. */
  ghost function WithEdit(c: Changes, e: Edit): Changes
    requires ChangesOk(c)
  {
    Changes(seq(NUM_LEVELS, l requires 0 <= l < NUM_LEVELS => c.deleted[l] + DeletedAt(e, l) - Numbers(AddedAt(e, l))),
            seq(NUM_LEVELS, l requires 0 <= l < NUM_LEVELS => c.added[l] + AddedAt(e, l)))
  }

  /** The tables of each level once the changes are saved over `base`. */
  ghost function Saved(base: seq<set<File>>, c: Changes): (r: seq<set<File>>)
    requires |base| == NUM_LEVELS && ChangesOk(c)
    ensures |r| == NUM_LEVELS
  {
    seq(NUM_LEVELS, l requires 0 <= l < NUM_LEVELS => set f | f in base[l] + c.added[l] && f.number !in c.deleted[l])
  }

  /** The tables of a version, without their order. */
  ghost function Tables(v: Levels): seq<set<File>>
  {
    seq(|v|, l requires 0 <= l < |v| => set f | f in v[l])
  }

  ghost predicate Ordered(v: Levels)
  {
    |v| == NUM_LEVELS && forall l :: 0 <= l < NUM_LEVELS ==> InOrder(v[l])
  }

  class VersionBuilder {
    const base: Levels
    var deleted: seq<set<nat>>
    var added: seq<seq<File>>

    /** The accumulated changes as sets. */
    ghost function Accumulated(): Changes
      reads this
    {
      Changes(deleted, Tables(added))
    }

    ghost predicate Valid()
      reads this
    {
      && |base| == |deleted| == |added| == NUM_LEVELS
      && forall l :: 0 <= l < NUM_LEVELS ==> InOrder(added[l])
    }

    constructor (base: Levels)
      requires |base| == NUM_LEVELS
      ensures Valid() && this.base == base && Accumulated() == NoChanges()
    {
      this.base := base;
      deleted := seq(NUM_LEVELS, _ => {});
      added := seq(NUM_LEVELS, _ => []);
      new;
      forall l | 0 <= l < NUM_LEVELS
        ensures Accumulated().added[l] == NoChanges().added[l]
      {
      }
    }

    /** No other table with the same smallest key and number is in the way. */
    ghost predicate Fresh(e: Edit)
      requires Valid()
      reads this
    {
      forall l, f, g :: 0 <= l < NUM_LEVELS && (l, f) in e.added && g in added[l] ==> f.number != g.number
    }

    method Apply(e: Edit)
      requires Valid() && EditOk(e) && Fresh(e)
      modifies this
      ensures Valid() && Accumulated() == WithEdit(old(Accumulated()), e)
    {
      hide DeletedAt, AddedAt, Numbers, InOrder;
      ghost var before := Accumulated();
      ApplyDeleted(e);
      ApplyAdded(e, before);
      AppliedAll(before, e);
    }

    method ApplyDeleted(e: Edit)
      requires Valid() && EditOk(e)
      modifies this`deleted
      ensures |deleted| == NUM_LEVELS
      ensures forall l :: 0 <= l < NUM_LEVELS ==> deleted[l] == old(deleted)[l] + DeletedAt(e, l)
    {
      var todo := e.deleted;
      ghost var done: set<(nat, nat)> := {};
      while todo != {}
        invariant done + todo == e.deleted && done !! todo && |deleted| == NUM_LEVELS
        invariant forall l :: 0 <= l < NUM_LEVELS ==> deleted[l] == old(deleted)[l] + (set d | d in done && d.0 == l :: d.1)
        decreases todo
      {
        var d :| d in todo;
        todo, done := todo - {d}, done + {d};
        deleted := deleted[d.0 := deleted[d.0] + {d.1}];
      }
    }

    method ApplyAdded(e: Edit, ghost before: Changes)
      requires Valid() && EditOk(e) && Fresh(e) && ChangesOk(before)
      requires forall l :: 0 <= l < NUM_LEVELS ==> deleted[l] == before.deleted[l] + DeletedAt(e, l)
      modifies this`deleted, this`added
      ensures Valid()
      ensures forall l :: 0 <= l < NUM_LEVELS ==> deleted[l] == before.deleted[l] + DeletedAt(e, l) - Numbers(AddedAt(e, l))
      ensures forall l, f :: 0 <= l < NUM_LEVELS ==> (f in added[l] <==> f in old(added)[l] || (l, f) in e.added)
    {
      for i := 0 to |e.added|
        invariant Valid()
        invariant forall l :: 0 <= l < NUM_LEVELS ==>
                    deleted[l] == before.deleted[l] + DeletedAt(e, l) - Numbers(AddedAt(Edit(e.deleted, e.added[..i]), l))
        invariant forall l, f :: 0 <= l < NUM_LEVELS ==>
                    (f in added[l] <==> f in old(added)[l] || (l, f) in e.added[..i])
      {
        var (level, f) := e.added[i];
        assert e.added[i] in e.added;
        assert e.added[..i + 1] == e.added[..i] + [e.added[i]];
        deleted := deleted[level := deleted[level] - {f.number}];
        var files := Insert(added[level], f);
        added := added[level := files];
      }
      assert e.added[..|e.added|] == e.added;
    }

    lemma AppliedAll(before: Changes, e: Edit)
      requires Valid() && ChangesOk(before)
      requires forall l :: 0 <= l < NUM_LEVELS ==> deleted[l] == before.deleted[l] + DeletedAt(e, l) - Numbers(AddedAt(e, l))
      requires forall l, f :: 0 <= l < NUM_LEVELS ==> (f in added[l] <==> f in before.added[l] || (l, f) in e.added)
      ensures Accumulated() == WithEdit(before, e)
    {
      var after := WithEdit(before, e);
      forall l | 0 <= l < NUM_LEVELS
        ensures Accumulated().deleted[l] == after.deleted[l] && Accumulated().added[l] == after.added[l]
      {
      }
    }

    /** SaveTo and MaybeAddFile for one level: base and added tables merged, deleted ones left out. */
    method SaveLevel(l: nat) returns (files: seq<File>)
      requires Valid() && l < NUM_LEVELS && InOrder(base[l])
      requires forall f, g :: f in base[l] && g in added[l] ==> f.number != g.number
      ensures InOrder(files)
      ensures forall f :: f in files <==> (f in base[l] || f in added[l]) && f.number !in deleted[l]
    {
      files := [];
      var b := 0;
      for a := 0 to |added[l]|
        invariant b <= |base[l]|
        invariant Merged(files, base[l], b, added[l], a, deleted[l])
      {
        var next := added[l][a];
        while b < |base[l]| && !Before(next, base[l][b])
          invariant b <= |base[l]|
          invariant Merged(files, base[l], b, added[l], a, deleted[l])
        {
          BeforeOrder(base[l][b], next, next);
          TakeBase(files, base[l], b, added[l], a, deleted[l]);
          if base[l][b].number !in deleted[l] { files := files + [base[l][b]]; }
          b := b + 1;
        }
        TakeAdded(files, base[l], b, added[l], a, deleted[l]);
        if next.number !in deleted[l] { files := files + [next]; }
      }
      while b < |base[l]|
        invariant b <= |base[l]|
        invariant Merged(files, base[l], b, added[l], |added[l]|, deleted[l])
      {
        TakeBase(files, base[l], b, added[l], |added[l]|, deleted[l]);
        if base[l][b].number !in deleted[l] { files := files + [base[l][b]]; }
        b := b + 1;
      }
    }

    /** SaveTo. */
    method SaveTo() returns (v: Levels)
      requires Valid() && Ordered(base)
      requires forall l, f, g :: 0 <= l < NUM_LEVELS && f in base[l] && g in added[l] ==> f.number != g.number
      ensures Ordered(v) && Tables(v) == Saved(Tables(base), Accumulated())
    {
      hide InOrder, Saved;
      ghost var saved := Saved(Tables(base), Accumulated());
      v := [];
      for l := 0 to NUM_LEVELS
        invariant |v| == l && forall m :: 0 <= m < l ==> InOrder(v[m]) && (set f | f in v[m]) == saved[m]
      {
        var files := SaveLevel(l);
        SavedLevel(l, files);
        v := v + [files];
      }
    }

    lemma SavedLevel(l: nat, files: seq<File>)
      requires Valid() && l < NUM_LEVELS && |base| == NUM_LEVELS
      requires forall f :: f in files <==> (f in base[l] || f in added[l]) && f.number !in deleted[l]
      ensures (set f | f in files) == Saved(Tables(base), Accumulated())[l]
    {
      forall f
        ensures f in files <==> f in Saved(Tables(base), Accumulated())[l]
      {
        assert f in added[l] <==> f in Tables(added)[l];
        assert f in base[l] <==> f in Tables(base)[l];
      }
    }
  }

  /** The state of a merge: `files` holds what is kept of the first `b` and the first `a` tables. */
  ghost predicate Merged(files: seq<File>, base: seq<File>, b: nat, added: seq<File>, a: nat, deleted: set<nat>)
    requires b <= |base| && a <= |added|
  {
    && InOrder(files)
    && (forall f :: f in files <==> (f in base[..b] || f in added[..a]) && f.number !in deleted)
    && (forall f, i :: f in files && b <= i < |base| ==> Before(f, base[i]))
    && (forall f, i :: f in files && a <= i < |added| ==> Before(f, added[i]))
  }

  lemma InOrderAppend(files: seq<File>, f: File)
    requires InOrder(files) && forall g :: g in files ==> Before(g, f)
    ensures InOrder(files + [f])
  {
    assert forall i :: 0 <= i < |files| ==> files[i] in files;
  }

  lemma TakeBase(files: seq<File>, base: seq<File>, b: nat, added: seq<File>, a: nat, deleted: set<nat>)
    requires b < |base| && a <= |added| && InOrder(base) && InOrder(added)
    requires Merged(files, base, b, added, a, deleted)
    requires a < |added| ==> Before(base[b], added[a])
    ensures Merged(if base[b].number in deleted then files else files + [base[b]], base, b + 1, added, a, deleted)
  {
    assert base[..b + 1] == base[..b] + [base[b]];
    InOrderAppend(files, base[b]);
    forall i | a <= i < |added|
      ensures Before(base[b], added[i])
    {
      BeforeOrder(base[b], added[a], added[i]);
    }
  }

  lemma TakeAdded(files: seq<File>, base: seq<File>, b: nat, added: seq<File>, a: nat, deleted: set<nat>)
    requires b <= |base| && a < |added| && InOrder(base) && InOrder(added)
    requires Merged(files, base, b, added, a, deleted)
    requires b < |base| ==> Before(added[a], base[b])
    ensures Merged(if added[a].number in deleted then files else files + [added[a]], base, b, added, a + 1, deleted)
  {
    assert added[..a + 1] == added[..a] + [added[a]];
    InOrderAppend(files, added[a]);
    forall i | b <= i < |base|
      ensures Before(added[a], base[i])
    {
      BeforeOrder(added[a], base[b], base[i]);
    }
  }

  // ------------------------------------------------------------ replaying the manifest

  ghost function Accumulate(edits: seq<Edit>): (c: Changes)
    ensures ChangesOk(c)
  {
    if edits == [] then NoChanges() else WithEdit(Accumulate(edits[..|edits| - 1]), edits[|edits| - 1])
  }

  /** Applying and saving each edit in turn, as LogAndApply does while the database is open. */
  ghost function SavedInTurn(base: seq<set<File>>, edits: seq<Edit>): (r: seq<set<File>>)
    requires |base| == NUM_LEVELS
    ensures |r| == NUM_LEVELS
  {
    if edits == [] then base else
      Saved(SavedInTurn(base, edits[..|edits| - 1]), WithEdit(NoChanges(), edits[|edits| - 1]))
  }

  /** Each edit adds numbers its levels have not seen before. */
  ghost predicate AddedOnce(base: seq<set<File>>, edits: seq<Edit>)
    requires |base| == NUM_LEVELS
  {
    forall i, l :: 0 <= i < |edits| && 0 <= l < NUM_LEVELS ==>
                     Numbers(AddedAt(edits[i], l)) !! Numbers(base[l] + Accumulate(edits[..i]).added[l])
  }

  /** Recovery saves once what was saved edit by edit, and gets the same version. */
  lemma {:induction false} ReplayRebuildsVersion(base: seq<set<File>>, edits: seq<Edit>)
    requires |base| == NUM_LEVELS && AddedOnce(base, edits)
    ensures Saved(base, Accumulate(edits)) == SavedInTurn(base, edits)
  {
    if edits == [] {
      var saved := Saved(base, NoChanges());
      assert forall l :: 0 <= l < NUM_LEVELS ==> saved[l] == base[l];
    } else {
      var n := |edits| - 1;
      forall i | 0 <= i < n ensures edits[..n][..i] == edits[..i] {}
      ReplayRebuildsVersion(base, edits[..n]);
      var c, e := Accumulate(edits[..n]), edits[n];
      forall l | 0 <= l < NUM_LEVELS
        ensures Saved(base, WithEdit(c, e))[l] == Saved(Saved(base, c), WithEdit(NoChanges(), e))[l]
      {
        OneMoreEdit(base[l], c.added[l], c.deleted[l], AddedAt(e, l), DeletedAt(e, l));
      }
    }
  }

  /** One level, one edit: saving before or after the edit is applied. */
  lemma OneMoreEdit(base: set<File>, added: set<File>, deleted: set<nat>, newAdded: set<File>, newDeleted: set<nat>)
    requires Numbers(newAdded) !! Numbers(base + added)
    ensures (set f | f in base + (added + newAdded) && f.number !in deleted + newDeleted - Numbers(newAdded)) ==
            (set f | f in (set g | g in base + added && g.number !in deleted) + ({} + newAdded) && f.number !in {} + newDeleted - Numbers(newAdded))
  {
    forall f | f in base + added
      ensures f.number !in Numbers(newAdded)
    {
      assert f.number in Numbers(base + added);
    }
  }

  // ------------------------------------------------------------ versions in order

  lemma LastIsIn(a: seq<File>)
    requires InOrder(a)
    ensures a != [] ==> a[|a| - 1] in a
    ensures forall f :: f in a && f != a[|a| - 1] ==> Before(f, a[|a| - 1])
    ensures a != [] ==> forall f :: f in a[..|a| - 1] <==> f in a && f != a[|a| - 1]
  {
    if a != [] {
      var x := a[|a| - 1];
      BeforeOrder(x, x, x);
      assert a == a[..|a| - 1] + [x];
      forall f | f in a[..|a| - 1]
        ensures Before(f, x)
      {
        var i :| 0 <= i < |a| - 1 && a[..|a| - 1][i] == f;
        assert Before(a[i], a[|a| - 1]);
      }
    }
  }

  /** Two strictly ordered lists of the same tables are the same list. */
  lemma {:induction false} SameOrder(a: seq<File>, b: seq<File>)
    requires InOrder(a) && InOrder(b) && forall f :: f in a <==> f in b
    ensures a == b
  {
    LastIsIn(a);
    LastIsIn(b);
    if a != [] && b != [] {
      var x, y := a[|a| - 1], b[|b| - 1];
      BeforeOrder(x, y, x);
      assert x == y;
      var a', b' := a[..|a| - 1], b[..|b| - 1];
      forall f
        ensures f in a' <==> f in b'
      {
        assert f in a' <==> f in a && f != x;
        assert f in b' <==> f in b && f != x;
      }
      SameOrder(a', b');
      assert a == a' + [x] && b == b' + [x];
    }
  }

  /** What LogAndApply guarantees of the new version. */
  ghost predicate Edited(v: Levels, v': Levels, e: Edit)
  {
    && Ordered(v) && Ordered(v')
    && (forall l, f :: 0 <= l < NUM_LEVELS ==> (f in v'[l] <==> (f in v[l] && (l, f.number) !in e.deleted) || (l, f) in e.added))
  }

  /** A level the edit does not mention stays as it is. */
  lemma UntouchedLevel(v: Levels, v': Levels, e: Edit, l: nat)
    requires Edited(v, v', e) && l < NUM_LEVELS
    requires forall d :: d in e.deleted ==> d.0 != l
    requires forall a :: a in e.added ==> a.0 != l
    ensures v'[l] == v[l]
  {
    forall f
      ensures f in v'[l] <==> f in v[l]
    {
      assert (l, f).0 == l && (l, f.number).0 == l;
    }
    SameOrder(v[l], v'[l]);
  }

  lemma EditNothing(v: Levels, v': Levels)
    requires Edited(v, v', Edit({}, []))
    ensures v == v'
  {
    forall l | 0 <= l < NUM_LEVELS
      ensures v[l] == v'[l]
    {
      UntouchedLevel(v, v', Edit({}, []), l);
    }
  }

  /** LogAndApply's new version: one edit over the current one. */
  method ApplyEdit(version: Levels, e: Edit) returns (v: Levels)
    requires Ordered(version) && EditOk(e)
    requires forall l, f, g :: 0 <= l < NUM_LEVELS && (l, f) in e.added && g in version[l] ==> f.number != g.number
    ensures Edited(version, v, e)
    ensures Tables(v) == Saved(Tables(version), WithEdit(NoChanges(), e))
  {
    var b := new VersionBuilder(version);
    ghost var none := b.Accumulated();
    assert forall l :: 0 <= l < NUM_LEVELS ==> none.added[l] == {} && none.deleted[l] == {};
    assert forall l, f :: 0 <= l < NUM_LEVELS && f in b.added[l] ==> f in none.added[l];
    b.Apply(e);
    ghost var c := b.Accumulated();
    assert forall l, f :: 0 <= l < NUM_LEVELS ==> (f in b.added[l] <==> f in c.added[l]);
    assert forall l, f :: 0 <= l < NUM_LEVELS ==> (f in c.added[l] <==> (l, f) in e.added);
    v := b.SaveTo();
    assert forall l, f :: 0 <= l < NUM_LEVELS ==> (f in v[l] <==> f in Tables(v)[l]);
    forall l, f | 0 <= l < NUM_LEVELS
      ensures f in v[l] <==> (f in version[l] && (l, f.number) !in e.deleted) || (l, f) in e.added
    {
      AfterEdit(version[l], e, l, f);
    }
  }

  lemma AfterEdit(files: seq<File>, e: Edit, l: nat, f: File)
    requires forall a, b :: a in e.added && b in e.added && a.0 == b.0 && a.1.number == b.1.number ==> a == b
    requires forall f, g :: (l, f) in e.added && g in files ==> f.number != g.number
    ensures (f in files || (l, f) in e.added) && f.number !in {} + DeletedAt(e, l) - Numbers(AddedAt(e, l)) <==>
            (f in files && (l, f.number) !in e.deleted) || (l, f) in e.added
  {
    if (l, f) in e.added {
      assert f in AddedAt(e, l);
      assert f.number in Numbers(AddedAt(e, l));
    } else if f in files {
      assert forall g :: g in AddedAt(e, l) ==> (l, g) in e.added;
      assert (l, f.number) in e.deleted <==> f.number in DeletedAt(e, l) by {
        if (l, f.number) in e.deleted { assert (l, f.number).0 == l; }
      }
    }
  }
}
