/** How long versions and their files live: the reference counts of db/version_set.cc. */
module Lifetimes {

  class FileMetaData {
    const number: nat
    var refs: nat

    /** As Builder::Apply makes it, with the builder's own reference. */
    constructor (number: nat)
      ensures this.number == number && refs == 1
    {
      this.number, refs := number, 1;
    }
  }

  /** A file in the array of its level. */
  datatype Placed = Placed(level: nat, file: FileMetaData)

  class Version {
    const files: seq<Placed>
    var refs: nat

    constructor (files: seq<Placed>)
      ensures this.files == files && refs == 0
    {
      this.files, refs := files, 0;
    }
  }

  /** What a VersionEdit does to the files: (level, number) pairs. */
  datatype Edit = Edit(deleted: set<(nat, nat)>, added: seq<(nat, nat)>)

  // ------------------------------------------------------------------ counting

  function Count(files: seq<Placed>, f: FileMetaData): nat
  {
    if files == [] then 0 else (if files[0].file == f then 1 else 0) + Count(files[1..], f)
  }

  /** How often the versions name the file. */
  function Held(versions: seq<Version>, f: FileMetaData): nat
  {
    if versions == [] then 0 else Count(versions[0].files, f) + Held(versions[1..], f)
  }

  lemma {:induction false} CountSum(a: seq<Placed>, b: seq<Placed>, f: FileMetaData)
    ensures Count(a + b, f) == Count(a, f) + Count(b, f)
  {
    if a == [] {
      assert a + b == b;
    } else {
      assert (a + b)[1..] == a[1..] + b;
      CountSum(a[1..], b, f);
    }
  }

  lemma CountOne(p: Placed, f: FileMetaData)
    ensures Count([p], f) == if p.file == f then 1 else 0
  {
    assert [p][1..] == [];
  }

  lemma {:induction false} HeldSum(a: seq<Version>, b: seq<Version>, f: FileMetaData)
    ensures Held(a + b, f) == Held(a, f) + Held(b, f)
  {
    if a == [] {
      assert a + b == b;
    } else {
      assert (a + b)[1..] == a[1..] + b;
      HeldSum(a[1..], b, f);
    }
  }

  lemma {:induction false} CountZero(files: seq<Placed>, f: FileMetaData)
    ensures Count(files, f) == 0 <==> forall i :: 0 <= i < |files| ==> files[i].file != f
  {
    if files != [] {
      CountZero(files[1..], f);
      assert forall i :: 0 <= i < |files| - 1 ==> files[1..][i] == files[i + 1];
    }
  }

  lemma {:induction false} HeldZero(versions: seq<Version>, f: FileMetaData)
    ensures Held(versions, f) == 0 <==> forall v, i :: v in versions && 0 <= i < |v.files| ==> v.files[i].file != f
  {
    if versions != [] {
      HeldZero(versions[1..], f);
      CountZero(versions[0].files, f);
      assert versions == [versions[0]] + versions[1..];
    }
  }

  lemma HeldWithout(versions: seq<Version>, i: nat, f: FileMetaData)
    requires i < |versions|
    ensures Held(versions, f) == Held(versions[..i] + versions[i + 1..], f) + Count(versions[i].files, f)
  {
    assert versions == versions[..i] + ([versions[i]] + versions[i + 1..]);
    HeldSum(versions[..i], [versions[i]] + versions[i + 1..], f);
    HeldSum([versions[i]], versions[i + 1..], f);
    HeldSum(versions[..i], versions[i + 1..], f);
    assert [versions[i]][1..] == [];
  }

  lemma HeldOneMore(versions: seq<Version>, v: Version, f: FileMetaData)
    ensures Held(versions + [v], f) == Held(versions, f) + Count(v.files, f)
  {
    HeldSum(versions, [v], f);
    assert [v][1..] == [];
  }

  // ------------------------------------------------------------------ edits

  function PlacesOf(files: seq<Placed>): set<(nat, nat)>
  {
    set i | 0 <= i < |files| :: (files[i].level, files[i].file.number)
  }

  function Added(edit: Edit): set<(nat, nat)>
  {
    set i | 0 <= i < |edit.added| :: edit.added[i]
  }

  /** What an edit makes of the files of a version; what it adds it does not delete. */
  function AfterEdit(places: set<(nat, nat)>, edit: Edit): set<(nat, nat)>
  {
    places - edit.deleted + Added(edit)
  }

  /** The files that MaybeAddFile adds. */
  function Kept(files: seq<Placed>, deleted: set<(nat, nat)>): (r: seq<Placed>)
    ensures forall i :: 0 <= i < |r| ==> r[i] in files
  {
    if files == [] then []
    else
      var n := |files| - 1;
      Kept(files[..n], deleted) + if (files[n].level, files[n].file.number) in deleted then [] else [files[n]]
  }

  lemma {:induction false} KeptPlaces(files: seq<Placed>, deleted: set<(nat, nat)>)
    ensures PlacesOf(Kept(files, deleted)) == PlacesOf(files) - deleted
  {
    if files != [] {
      var n := |files| - 1;
      KeptPlaces(files[..n], deleted);
      assert files == files[..n] + [files[n]];
      PlacesSum(files[..n], [files[n]]);
      if (files[n].level, files[n].file.number) !in deleted {
        PlacesSum(Kept(files[..n], deleted), [files[n]]);
      } else {
        assert Kept(files, deleted) == Kept(files[..n], deleted);
      }
      PlacesOne(files[n]);
    }
  }

  lemma PlacesOne(p: Placed)
    ensures PlacesOf([p]) == {(p.level, p.file.number)}
  {
    assert [p][0] == p;
  }

  lemma PlacesSum(a: seq<Placed>, b: seq<Placed>)
    ensures PlacesOf(a + b) == PlacesOf(a) + PlacesOf(b)
  {
    forall p | p in PlacesOf(b) ensures p in PlacesOf(a + b) {
      var i :| 0 <= i < |b| && p == (b[i].level, b[i].file.number);
      assert (a + b)[|a| + i] == b[i];
    }
    forall p | p in PlacesOf(a) ensures p in PlacesOf(a + b) {
      var i :| 0 <= i < |a| && p == (a[i].level, a[i].file.number);
      assert (a + b)[i] == a[i];
    }
  }

  // ------------------------------------------------------------------ the version set

  /** The list of versions, the current one among them. `building` is a version made by LogAndApply but not yet appended. */
  class VersionSet {
    var versions: seq<Version>
    var current: Version
    ghost var building: seq<Version>
    /** One for every reference taken and not yet dropped. */
    ghost var holders: multiset<Version>
    /** The files that have not been deleted. */
    ghost var files: set<FileMetaData>

    ghost function All(): seq<Version>
      reads `versions, `building
    {
      versions + building
    }

    ghost predicate Valid()
      reads this, versions, building, files
    {
      current in versions && current in holders && Counted()
    }

    /** Counts are what they should be: of a version its holders, of a file the versions naming it, and never zero. */
    ghost predicate Counted()
      reads this, versions, building, files
    {
      VersionsCounted() && FilesCounted()
    }

    ghost predicate VersionsCounted()
      reads this, versions, building
    {
      && (forall i, j :: 0 <= i < j < |versions| ==> versions[i] != versions[j])
      && (forall v :: v in versions ==> v in holders && v.refs == holders[v])
      && (forall v :: v in holders ==> v in versions)
      && |building| <= 1 && (forall v :: v in building ==> v !in versions && v.refs == 0)
    }

    ghost predicate FilesCounted()
      reads this, files
    {
      && (forall v, i :: v in All() && 0 <= i < |v.files| ==> v.files[i].file in files)
      && (forall f :: f in files ==> f.refs == Held(All(), f) && f.refs > 0)
    }

    /** The first version, without files. */
    constructor ()
      ensures Valid() && fresh(versions) && building == [] && files == {} && holders == multiset{current}
      ensures current.files == []
    {
      var v := new Version([]);
      v.refs := 1;
      versions, current, building, holders, files := [v], v, [], multiset{v}, {};
    }

    /** Version::Ref. */
    method Ref(v: Version)
      requires Counted() && v in versions
      modifies v, this`holders
      ensures Counted() && holders == old(holders) + multiset{v}
    {
      v.refs := v.refs + 1;
      holders := holders + multiset{v};
    }

    /** Version::Unref: the last one to go deletes the version, and the files that only it named. */
    method Unref(v: Version)
      requires Counted() && v in holders
      modifies v, this`holders, this`versions, this`files, files
      ensures Counted() && holders == old(holders) - multiset{v}
      ensures v in holders ==> versions == old(versions) && files == old(files)
      ensures v !in holders ==> forall w :: w in versions <==> w in old(versions) && w != v
      ensures forall w :: w in versions ==> w in old(versions)
      ensures files <= old(files)
    {
      v.refs := v.refs - 1;
      holders := holders - multiset{v};
      if v.refs > 0 {
        return;
      }
      Delete(v);
    }

    /** ~Version. */
    method Delete(v: Version)
      requires v in versions && v.refs == 0 && v !in holders
      requires forall i, j :: 0 <= i < j < |versions| ==> versions[i] != versions[j]
      requires forall w :: w in versions && w != v ==> w in holders && w.refs == holders[w]
      requires forall w :: w in holders ==> w in versions
      requires |building| <= 1 && forall w :: w in building ==> w !in versions && w.refs == 0
      requires FilesCounted()
      modifies this`versions, this`files, files
      ensures Counted()
      ensures forall w :: w in versions <==> w in old(versions) && w != v
      ensures files <= old(files)
    {
      Unlink(v);
      DropFiles(v.files);
    }

    /** Its neighbours in the list are linked to each other. */
    method Unlink(v: Version)
      requires v in versions && FilesCounted()
      requires forall i, j :: 0 <= i < j < |versions| ==> versions[i] != versions[j]
      modifies this`versions
      ensures CountedWith(v.files)
      ensures forall i, j :: 0 <= i < j < |versions| ==> versions[i] != versions[j]
      ensures forall w :: w in versions <==> w in old(versions) && w != v
    {
      hide Held, Count;
      var at: nat :| at < |versions| && versions[at] == v;
      ghost var before := All();
      var after := versions[..at] + versions[at + 1..];
      WithoutOne(versions, at);
      assert before[..at] + before[at + 1..] == after + building;
      forall f | f in files ensures Held(before, f) == Held(after + building, f) + Count(v.files, f) {
        HeldWithout(before, at, f);
      }
      versions := after;
    }

    static lemma WithoutOne(vs: seq<Version>, at: nat)
      requires at < |vs| && forall i, j :: 0 <= i < j < |vs| ==> vs[i] != vs[j]
      ensures var after := vs[..at] + vs[at + 1..];
              && (forall i, j :: 0 <= i < j < |after| ==> after[i] != after[j])
              && (forall w :: w in after <==> w in vs && w != vs[at])
    {
      var after := vs[..at] + vs[at + 1..];
      forall w | w in vs && w != vs[at]
        ensures w in after
      {
        var k :| 0 <= k < |vs| && vs[k] == w;
        assert after[if k < at then k else k - 1] == w;
      }
    }

    /** The counts are right once these references are dropped as well. */
    ghost predicate CountedWith(extra: seq<Placed>)
      reads this, files
    {
      && (forall v, i :: v in All() && 0 <= i < |v.files| ==> v.files[i].file in files)
      && (forall i :: 0 <= i < |extra| ==> extra[i].file in files)
      && (forall f :: f in files ==> f.refs == Held(All(), f) + Count(extra, f) && f.refs > 0)
    }

    method DropFiles(dropped: seq<Placed>)
      requires CountedWith(dropped)
      modifies this`files, files
      ensures FilesCounted() && files <= old(files)
    {
      hide Held, Count;
      var i := 0;
      assert dropped[0..] == dropped;
      while i < |dropped|
        invariant i <= |dropped| && files <= old(files)
        invariant CountedWith(dropped[i..])
      {
        DropFile(dropped[i..]);
        assert dropped[i..][1..] == dropped[i + 1..];
        i := i + 1;
      }
      assert dropped[|dropped|..] == [];
      CountNone();
    }

    lemma CountNone()
      ensures forall f :: Count([], f) == 0
    {
    }

    method DropFile(dropped: seq<Placed>)
      requires dropped != [] && CountedWith(dropped)
      modifies this`files, files
      ensures CountedWith(dropped[1..]) && files <= old(files)
    {
      var f := dropped[0].file;
      ghost var rest := dropped[1..];
      assert forall k :: 0 <= k < |rest| ==> rest[k] == dropped[k + 1];
      f.refs := f.refs - 1;
      if f.refs == 0 {
        HeldZero(All(), f);
        CountZero(rest, f);
        files := files - {f};
      }
    }

    /** A new file of an edit, held by the builder alone. */
    method NewFile(level: nat, number: nat, extra: seq<Placed>) returns (p: Placed)
      requires CountedWith(extra)
      modifies this`files
      ensures fresh(p.file) && p.level == level && p.file.number == number && files == old(files) + {p.file}
      ensures CountedWith(extra + [p])
    {
      var f := new FileMetaData(number);
      p := Placed(level, f);
      HeldZero(All(), f);
      CountZero(extra, f);
      forall g ensures Count(extra + [p], g) == Count(extra, g) + (if f == g then 1 else 0) {
        CountSum(extra, [p], g);
        CountOne(p, g);
      }
      files := files + {f};
    }

    /** f->refs++ */
    method KeepFile(p: Placed, extra: seq<Placed>)
      requires CountedWith(extra) && p.file in files
      modifies p.file
      ensures CountedWith(extra + [p])
    {
      p.file.refs := p.file.refs + 1;
      forall g ensures Count(extra + [p], g) == Count(extra, g) + (if p.file == g then 1 else 0) {
        CountSum(extra, [p], g);
        CountOne(p, g);
      }
    }

    /** Builder::Apply. */
    method Apply(news: seq<(nat, nat)>) returns (added: seq<Placed>)
      requires FilesCounted()
      modifies this`files
      ensures CountedWith(added) && old(files) <= files && fresh(files - old(files))
      ensures |added| == |news| && forall k :: 0 <= k < |news| ==> (added[k].level, added[k].file.number) == news[k]
    {
      hide Held, Count;
      CountNone();
      added := [];
      for k := 0 to |news|
        invariant CountedWith(added) && old(files) <= files && fresh(files - old(files))
        invariant |added| == k && forall j :: 0 <= j < k ==> (added[j].level, added[j].file.number) == news[j]
      {
        var p := NewFile(news[k].0, news[k].1, added);
        added := added + [p];
      }
    }

    /** Builder::SaveTo, in whatever order. */
    method SaveTo(candidates: seq<Placed>, deleted: set<(nat, nat)>, extra: seq<Placed>) returns (saved: seq<Placed>)
      requires CountedWith(extra) && forall i :: 0 <= i < |candidates| ==> candidates[i].file in files
      modifies files
      ensures CountedWith(extra + saved) && saved == Kept(candidates, deleted)
    {
      hide Held, Count;
      saved := [];
      assert extra + [] == extra;
      for k := 0 to |candidates|
        invariant CountedWith(extra + saved) && saved == Kept(candidates[..k], deleted)
      {
        assert candidates[..k + 1][..k] == candidates[..k];
        var p := candidates[k];
        if (p.level, p.file.number) !in deleted {
          KeepFile(p, extra + saved);
          assert (extra + saved) + [p] == extra + (saved + [p]);
          saved := saved + [p];
        }
      }
      assert candidates[..|candidates|] == candidates;
    }

    /** The references a new version holds are its own now. */
    method Adopt(v: Version, extra: seq<Placed>)
      requires building == [] && CountedWith(extra + v.files)
      modifies this`building
      ensures building == [v] && CountedWith(extra)
    {
      assert versions + building == versions;
      forall f ensures Held(versions + [v], f) == Held(versions, f) + Count(v.files, f) {
        HeldOneMore(versions, v, f);
      }
      forall f ensures Count(extra + v.files, f) == Count(extra, f) + Count(v.files, f) {
        CountSum(extra, v.files, f);
      }
      forall i | 0 <= i < |v.files| ensures v.files[i].file in files {
        assert (extra + v.files)[|extra| + i] == v.files[i];
      }
      forall i | 0 <= i < |extra| ensures extra[i].file in files {
        assert (extra + v.files)[i] == extra[i];
      }
      building := [v];
    }

    /**
     * LogAndApply up to where it lets go of the mutex: a builder holds the current version and a reference to each new
     * file; what it saves counts in the files; then it goes.
     */
    method Build(edit: Edit) returns (v: Version)
      requires Valid() && building == []
      modifies this`building, this`files, this`holders, this`versions, files, current
      ensures Valid() && building == [v] && fresh(v) && fresh(files - old(files))
      ensures versions == old(versions) && current == old(current) && holders == old(holders)
      ensures PlacesOf(v.files) == AfterEdit(PlacesOf(current.files), edit)
    {
      hide FilesCounted, VersionsCounted;
      var base := current;
      Ref(base);
      v := SaveCounted(base, edit);
      Unref(base);
    }

    method SaveCounted(base: Version, edit: Edit) returns (v: Version)
      requires building == [] && base in holders && base in versions && Counted()
      modifies this`building, this`files, files
      ensures building == [v] && fresh(v) && Counted()
      ensures fresh(files - old(files))
      ensures PlacesOf(v.files) == AfterEdit(PlacesOf(base.files), edit)
    {
      hide FilesCounted;
      v := Save(base, edit);
    }

    method Save(base: Version, edit: Edit) returns (v: Version)
      requires building == [] && base in versions && FilesCounted()
      modifies this`building, this`files, files
      ensures building == [v] && fresh(v) && v.refs == 0 && FilesCounted()
      ensures fresh(files - old(files))
      ensures PlacesOf(v.files) == AfterEdit(PlacesOf(base.files), edit)
    {
      hide Held, Count, Kept;
      var added := Apply(edit.added);
      var candidates := base.files + added;
      var deleted := edit.deleted - Added(edit);
      var saved := SaveTo(candidates, deleted, added);
      KeptPlaces(candidates, deleted);
      PlacesSum(base.files, added);
      assert PlacesOf(added) == Added(edit);
      v := new Version(saved);
      Adopt(v, added);
      DropFiles(added);
    }

    /** AppendVersion, once the edit is in the manifest. */
    method AppendVersion(v: Version)
      requires Valid() && building == [v]
      modifies this, v, current, files
      ensures Valid() && building == [] && current == v
      ensures holders == old(holders) - multiset{old(current)} + multiset{v}
      ensures forall w :: w in versions ==> w == v || w in old(versions)
      ensures files <= old(files)
    {
      Unref(current);
      Append(v);
    }

    method Append(v: Version)
      requires Counted() && building == [v]
      modifies this`current, this`versions, this`building, this`holders, v
      ensures Valid() && building == [] && current == v
      ensures holders == old(holders) + multiset{v} && versions == old(versions) + [v]
    {
      hide Held;
      current := v;
      v.refs := v.refs + 1;
      holders := holders + multiset{v};
      versions, building := versions + [v], [];
      assert All() == old(All());
    }

    /** AddLiveFiles. */
    method AddLiveFiles(pending: set<nat>) returns (live: set<nat>)
      requires Valid()
      ensures forall n :: n in live <==> n in pending || exists v, i :: v in versions && 0 <= i < |v.files| && v.files[i].file.number == n
    {
      live := pending;
      for k := 0 to |versions|
        invariant forall n :: n in live <==> n in pending || exists j, i :: 0 <= j < k && 0 <= i < |versions[j].files| && versions[j].files[i].file.number == n
      {
        var v := versions[k];
        for i := 0 to |v.files|
          invariant forall n :: n in live <==> (n in pending
            || (exists j, i :: 0 <= j < k && 0 <= i < |versions[j].files| && versions[j].files[i].file.number == n)
            || (exists h :: 0 <= h < i && v.files[h].file.number == n))
        {
          live := live + {v.files[i].file.number};
        }
      }
    }
  }
}
