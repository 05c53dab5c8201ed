/** The bucket as the scripts use it: an object changed by one upload or delete at a time,
    and the publish and removal that drive it. */
module Bucket {
  import opened Basics
  import opened PackageNames
  import opened Repository
  import opened RepositorySafety
  import opened RepositoryRuns
  import RemoveDropped

  /** Every tree the bucket passes through while some writes are made. */
  ghost function Trail(t: Tree, writes: seq<Write>): seq<Tree>
    decreases |writes|
  {
    if writes == [] then [] else [Do(t, writes[0])] + Trail(Do(t, writes[0]), writes[1..])
  }

  lemma {:induction false} TrailAppend(t: Tree, a: seq<Write>, b: seq<Write>)
    ensures Trail(t, a + b) == Trail(t, a) + Trail(DoAll(t, a), b)
    decreases |a|
  {
    hide Do;
    if a == [] {
      assert a + b == b;
    } else {
      assert (a + b)[0] == a[0] && (a + b)[1..] == a[1..] + b;
      TrailAppend(Do(t, a[0]), a[1..], b);
    }
  }

  lemma {:induction false} TrailServes(strict: bool, t: Tree, writes: seq<Write>)
    requires ServedThroughout(strict, t, writes)
    ensures forall u :: u in Trail(t, writes) ==> Served(strict, u)
    decreases |writes|
  {
    hide Served, Do;
    if writes != [] {
      TrailServes(strict, Do(t, writes[0]), writes[1..]);
    }
  }

  lemma OneMore(t: Tree, done: seq<Write>, w: Write)
    ensures DoAll(t, done + [w]) == Do(DoAll(t, done), w)
    ensures Trail(t, done + [w]) == Trail(t, done) + [Do(DoAll(t, done), w)]
  {
    DoAllAppend(t, done, [w]);
    TrailAppend(t, done, [w]);
    assert [w][1..] == [];
    hide Do;
  }

  class Store {
    var objects: map<string, Blob>
    var db: Option<Published>
    /** Every tree readers have been able to see, the present one last. */
    ghost var seen: seq<Tree>

    ghost function Now(): Tree
      reads this
    {
      Tree(objects, db)
    }

    constructor (objects: map<string, Blob>, db: Option<Published>)
      ensures Now() == Tree(objects, db) && seen == [Now()]
    {
      this.objects, this.db, seen := objects, db, [Tree(objects, db)];
    }

    /** What has been done since a tree, write by write. */
    ghost predicate Did(t: Tree, past: seq<Tree>, done: seq<Write>)
      reads this
    {
      Now() == DoAll(t, done) && seen == past + Trail(t, done)
    }

    method Upload(name: string, blob: Blob, ghost t: Tree, ghost past: seq<Tree>, ghost done: seq<Write>)
      requires Did(t, past, done)
      modifies this
      ensures Now() == Do(old(Now()), Put(name, blob))
      ensures Did(t, past, done + [Put(name, blob)])
    {
      OneMore(t, done, Put(name, blob));
      objects := objects[name := blob];
      seen := seen + [Now()];
    }

    method UploadDatabases(published: Published, ghost t: Tree, ghost past: seq<Tree>, ghost done: seq<Write>)
      requires Did(t, past, done)
      modifies this
      ensures Now() == Do(old(Now()), PutDatabase(published))
      ensures Did(t, past, done + [PutDatabase(published)])
    {
      OneMore(t, done, PutDatabase(published));
      db := Some(published);
      seen := seen + [Now()];
    }

    method DeleteObject(name: string, ghost t: Tree, ghost past: seq<Tree>, ghost done: seq<Write>)
      requires Did(t, past, done)
      modifies this
      ensures Now() == Do(old(Now()), Delete(name))
      ensures Did(t, past, done + [Delete(name)])
    {
      OneMore(t, done, Delete(name));
      objects := objects - {name};
      seen := seen + [Now()];
    }

    /** The paginated listing: every object's name, in some order. */
    method List() returns (names: seq<string>)
      ensures Lists(names, objects)
      ensures forall n :: n in names ==> n in objects
    {
      names := [];
      var todo := objects.Keys;
      while todo != {}
        invariant todo <= objects.Keys
        invariant forall n :: n in objects ==> n in todo || n in names
        invariant forall n :: n in names ==> n in objects
      {
        var n :| n in todo;
        names := names + [n];
        todo := todo - {n};
      }
    }

    /** The file names the database as it is now points readers at. */
    method ReferencedBy() returns (live: set<string>)
      ensures live == Live(Now())
    {
      live := {};
      if db.None? {
        return;
      }
      var todo := db.value.entries.Keys;
      while todo != {}
        invariant todo <= Entries(Now()).Keys
        invariant live == set p | p in Entries(Now()) && p !in todo :: Entries(Now())[p].filename
      {
        var p :| p in todo;
        live := live + {db.value.entries[p].filename};
        todo := todo - {p};
      }
    }

    /** refuse_overwrite: is what is published under this name something else? */
    method RefusesOverwrite(b: Built) returns (refused: bool)
      ensures refused == (b.filename in objects && objects[b.filename] != Package(b.bytes))
    {
      if b.filename !in objects {
        return false;
      }
      return objects[b.filename] != Package(b.bytes);
    }

    method UploadPackage(b: Built, ghost t: Tree, ghost past: seq<Tree>, ghost done: seq<Write>)
      requires Did(t, past, done)
      modifies this
      ensures Now() == DoAll(old(Now()), UploadsOf(b))
      ensures Did(t, past, done + UploadsOf(b))
    {
      UploadsUnfold(Now(), b);
      var put := Put(b.filename, Package(b.bytes));
      Upload(b.filename, Package(b.bytes), t, past, done);
      if b.signature.Some? {
        var sig := Put(b.filename + SIG, Signature(b.bytes, b.signature.value));
        Upload(b.filename + SIG, Signature(b.bytes, b.signature.value), t, past, done + [put]);
        assert done + [put] + [sig] == done + UploadsOf(b);
      }
      hide DoAll, Trail;
    }

    method PruneSuperseded(build: seq<Built>, ghost t: Tree, ghost past: seq<Tree>, ghost done: seq<Write>)
      returns (ghost listing: seq<string>)
      requires Did(t, past, done)
      modifies this
      ensures Did(t, past, done + Prunes(build, listing)) && Lists(listing, old(objects))
    {
      hide Superseded;
      var names := List();
      listing := names;
      ghost var made := [];
      var i := 0;
      assert done + [] == done;
      while i < |names|
        invariant 0 <= i <= |names|
        invariant Did(t, past, done + made)
        invariant made + Prunes(build, names[i..]) == Prunes(build, names)
      {
        assert names[i..][0] == names[i] && names[i..][1..] == names[i + 1..];
        if Superseded(build, names[i]) {
          DeleteObject(names[i], t, past, done + made);
          assert (done + made) + [Delete(names[i])] == done + (made + [Delete(names[i])]);
          made := made + [Delete(names[i])];
        }
        i := i + 1;
      }
      assert made + [] == made;
    }

    /** Upload what was built, in order; false at the first package that is refused. */
    method UploadBuild(build: seq<Built>, live: set<string>, ghost past: seq<Tree>) returns (ok: bool)
      requires PackageFiles(build) && live == Live(Now()) && Did(Now(), past, [])
      modifies this
      ensures ok == Accepted(old(Now()), build)
      ensures Did(old(Now()), past, Uploads(live, old(Now()), build))
    {
      ghost var t := Now();
      ghost var made := [];
      var i := 0;
      assert build[0..] == build;
      hide Did, Uploads, UploadsOf, Refused, Slots, PackageFiles, DoAll, Accepted;
      SlotsAtFirst(t, build);
      while i < |build|
        invariant 0 <= i <= |build| && Did(t, past, made)
        invariant made + Uploads(live, t, build[i..]) == Uploads(live, t, build)
        invariant forall k :: 0 <= k < i ==> !Refused(live, t, build[k])
        invariant Slots(t, Now(), build, i)
      {
        var b := build[i];
        RefusedBySlot(live, t, Now(), build, i);
        UploadsHead(live, t, build[i..]);
        assert build[i..][0] == b && build[i..][1..] == build[i + 1..];
        var refused := false;
        if b.filename in live {
          refused := RefusesOverwrite(b);
        }
        assert refused == Refused(live, t, b);
        if refused {
          assert made + [] == made;
          return false;
        }
        OthersSpared(t, Now(), build, i);
        UploadPackage(b, t, past, made);
        MoreMade(made, UploadsOf(b), Uploads(live, t, build[i + 1..]));
        made := made + UploadsOf(b);
        i := i + 1;
      }
      UploadsHead(live, t, build[i..]);
      assert made + [] == made;
      AllAccepted(live, t, build);
      return true;
    }

    /** Publish what was built: packages first, the database after them, the superseded
        files last. False when some package was refused. */
    method Publish(build: seq<Built>, sign: bool) returns (ok: bool, ghost listing: seq<string>)
      requires PackageFiles(build)
      modifies this
      ensures ok == Accepted(old(Now()), build)
      ensures Did(old(Now()), old(seen), PublishWrites(old(Now()), build, sign, listing))
      ensures ok ==> Lists(listing, old(objects) + AllUploads(old(Now()), build))
    {
      hide Superseded, Prunes, AddAll, Uploads, Accepted, PackageFiles, Lists, AllUploads;
      ghost var t, past := Now(), seen;
      var live := ReferencedBy();
      var entries := if db.Some? then db.value.entries else map[];
      listing := [];
      assert past + [] == past;
      ok := UploadBuild(build, live, past);
      if !ok {
        return;
      }
      ghost var ups := Uploads(live, t, build);
      UploadsKnown(t, build);
      UploadDatabases(Published(AddAll(entries, build), sign), t, past, ups);
      listing := PruneSuperseded(build, t, past, ups + [PutDatabase(NewDatabase(t, build, sign))]);
    }

    /** Take out what nothing builds any more, unless something still needs it. */
    method Remove(dropped: set<string>, sign: bool) returns (ghost listing: seq<string>)
      requires db.Some?
      modifies this
      ensures Did(old(Now()), old(seen), RemoveWrites(old(Now()), dropped, sign, listing))
      ensures Lists(listing, old(objects))
    {
      ghost var t, past := Now(), seen;
      var entries := db.value.entries;
      ghost var put := PutDatabase(Published(entries - dropped, sign));
      assert [] + [put] == [put];
      UploadDatabases(Published(entries - dropped, sign), t, past, []);
      var names := List();
      listing := names;
      ghost var made := [];
      var i := 0;
      assert [put] + [] == [put];
      hide Doomed;
      while i < |names|
        invariant 0 <= i <= |names| && Did(t, past, [put] + made)
        invariant made + Deletes(entries, dropped, names[i..]) == Deletes(entries, dropped, names)
      {
        assert names[i..][0] == names[i] && names[i..][1..] == names[i + 1..];
        if Doomed(entries, dropped, names[i]) {
          DeleteObject(names[i], t, past, [put] + made);
          assert ([put] + made) + [Delete(names[i])] == [put] + (made + [Delete(names[i])]);
          made := made + [Delete(names[i])];
        }
        i := i + 1;
      }
      assert made + [] == made;
    }
  }

  /** remove: a refusal, nothing to do, or a dry run changes nothing; otherwise what nothing
      builds any more goes, the database first. The metadata is the database's own. */
  method RemoveUnbuilt(store: Store, live: map<string, RemoveDropped.Meta>, wanted: set<string>, elsewhere: set<string>,
                       sign: bool, apply: bool)
    returns (ok: bool, ghost listing: seq<string>)
    requires store.db.Some? ==> live.Keys == store.db.value.entries.Keys
    modifies store
    ensures store.db.Some? ==> ok == RemoveDropped.MayDrop(live, wanted, elsewhere)
    ensures var t := old(store.Now()); var dropped := RemoveDropped.Dropped(live, wanted);
      if t.db.Some? && ok && dropped != {} && apply
      then store.Did(t, old(store.seen), RemoveWrites(t, dropped, sign, listing)) && Lists(listing, t.objects)
      else store.Now() == t && store.seen == old(store.seen)
  {
    listing := [];
    if store.db.None? {
      return true, listing;
    }
    hide RemoveDropped.MayDrop, RemoveWrites;
    var dropped, refusals := RemoveDropped.Plan(live, wanted, elsewhere);
    if refusals != [] {
      return false, listing;
    }
    ok := true;
    if dropped != {} && apply {
      listing := store.Remove(dropped, sign);
    }
  }

  /** The name of b holds in u what it held in t. */
  ghost predicate SameSlot(t: Tree, u: Tree, b: Built)
  {
    (b.filename in u.objects <==> b.filename in t.objects)
    && (b.filename in t.objects ==> u.objects[b.filename] == t.objects[b.filename])
  }

  /** The packages from i on find in u just what they found in t. */
  ghost predicate Slots(t: Tree, u: Tree, build: seq<Built>, i: nat)
  {
    forall k :: i <= k < |build| ==> SameSlot(t, u, build[k])
  }

  lemma MoreMade(made: seq<Write>, next: seq<Write>, rest: seq<Write>)
    ensures (made + next) + rest == made + (next + rest)
  {
  }

  lemma SlotsAtFirst(t: Tree, build: seq<Built>)
    ensures Slots(t, t, build, 0)
  {
  }

  lemma RefusedBySlot(live: set<string>, t: Tree, u: Tree, build: seq<Built>, i: nat)
    requires i < |build| && Slots(t, u, build, i)
    ensures var b := build[i];
      Refused(live, t, b) == (b.filename in live && b.filename in u.objects && u.objects[b.filename] != Package(b.bytes))
  {
  }

  lemma UploadsHead(live: set<string>, t: Tree, build: seq<Built>)
    ensures Uploads(live, t, build)
         == if build == [] || Refused(live, t, build[0]) then [] else UploadsOf(build[0]) + Uploads(live, t, build[1..])
  {
    hide Refused, UploadsOf;
  }

  lemma OthersSpared(t: Tree, u: Tree, build: seq<Built>, i: nat)
    requires PackageFiles(build) && i < |build|
    requires Slots(t, u, build, i)
    ensures Slots(t, DoAll(u, UploadsOf(build[i])), build, i + 1) && SameSlot(t, u, build[i])
  {
    forall k | i < k < |build| ensures SameSlot(t, DoAll(u, UploadsOf(build[i])), build[k]) {
      assert build[i] in build && build[k] in build;
      FilesApart(build[i], build[k]);
      UploadsOfSpare(u, build[i], build[k].filename);
      hide DoAll, IsPackage;
      assert SameSlot(t, u, build[k]);
    }
  }

  lemma AllAccepted(live: set<string>, t: Tree, build: seq<Built>)
    requires live == Live(t)
    requires forall k :: 0 <= k < |build| ==> !Refused(live, t, build[k])
    ensures Accepted(t, build)
  {
    hide Refused;
  }

  lemma UploadsKnown(t: Tree, build: seq<Built>)
    ensures DoAll(t, Uploads(Live(t), t, build)).objects == t.objects + AllUploads(t, build)
  {
    UploadsOnlyPut(Live(t), t, build);
    PutsDo(t, Uploads(Live(t), t, build));
    hide DoAll, Uploads, PutMap;
  }

  /** Whatever a publish did, ended or refused, every tree readers saw meanwhile served
      them. */
  lemma PublishTrailServes(strict: bool, t: Tree, build: seq<Built>, sign: bool, listing: seq<string>)
    requires Served(strict, t) && WellBuilt(build)
    requires strict ==> forall b :: b in build ==> b.signature.Some?
    ensures forall u :: u in Trail(t, PublishWrites(t, build, sign, listing)) ==> Served(strict, u)
  {
    PublishServes(strict, t, build, sign, listing);
    hide Served, PublishWrites;
    TrailServes(strict, t, PublishWrites(t, build, sign, listing));
  }

  lemma RemoveTrailServes(strict: bool, t: Tree, dropped: set<string>, sign: bool, listing: seq<string>)
    requires Served(strict, t)
    ensures forall u :: u in Trail(t, RemoveWrites(t, dropped, sign, listing)) ==> Served(strict, u)
  {
    RemoveServes(strict, t, dropped, sign, listing);
    hide Served, RemoveWrites;
    TrailServes(strict, t, RemoveWrites(t, dropped, sign, listing));
  }
}
