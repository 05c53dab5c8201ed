/** What a removal leaves: the entries without the dropped ones, neither file of any of
    them, every other object as it was, and nothing for the consistency check to report. */
module RemovalEnds {
  import opened Basics
  import opened PackageNames
  import opened Repository
  import opened RepositorySafety
  import opened RepositoryRuns
  import opened CheckRepo

  /** The object is a dropped package's file or the signature of one. */
  predicate IsFileOf(db: Database, dropped: set<string>, name: string)
  {
    exists p :: p in dropped && p in db && (name == db[p].filename || name == db[p].filename + SIG)
  }

  lemma {:induction false} DeletesDo(t: Tree, db: Database, dropped: set<string>, listing: seq<string>)
    ensures var u := DoAll(t, Deletes(db, dropped, listing));
      && u.db == t.db
      && (forall n :: n in u.objects <==> n in t.objects && !(n in listing && Doomed(db, dropped, n)))
      && (forall n :: n in u.objects ==> u.objects[n] == t.objects[n])
    decreases |listing|
  {
    hide Doomed;
    if listing != [] {
      var rest := listing[1..];
      assert forall n :: n in listing <==> n == listing[0] || n in rest;
      if Doomed(db, dropped, listing[0]) {
        DeletesDo(Do(t, Delete(listing[0])), db, dropped, rest);
        assert Deletes(db, dropped, listing)[1..] == Deletes(db, dropped, rest);
      } else {
        DeletesDo(t, db, dropped, rest);
      }
    }
  }

  lemma FilesAreDoomed(db: Database, dropped: set<string>, p: string)
    requires p in dropped && p in db && IsPackage(db[p].filename)
    ensures Doomed(db, dropped, db[p].filename) && Doomed(db, dropped, db[p].filename + SIG)
  {
    SignatureNames(db[p].filename);
    hide IsPackage, RemoveSuffix;
  }

  lemma OnlyFilesAreDoomed(db: Database, dropped: set<string>, name: string)
    ensures Doomed(db, dropped, name) ==> IsFileOf(db, dropped, name)
  {
    hide IsPackage, RemoveSuffix;
  }

  /** A completed removal over a full listing: the dropped entries are gone from the
      database, the files of each that was listed under a package name are gone with their
      signatures, and everything else is as it was. */
  lemma RemoveEndsAt(t: Tree, dropped: set<string>, sign: bool, listing: seq<string>)
    requires Lists(listing, t.objects)
    ensures var end := DoAll(t, RemoveWrites(t, dropped, sign, listing));
      && end.db == Some(Published(Entries(t) - dropped, sign))
      && (forall p :: p in dropped && p in Entries(t) && IsPackage(Entries(t)[p].filename) ==>
            Entries(t)[p].filename !in end.objects && Entries(t)[p].filename + SIG !in end.objects)
      && (forall n :: n in t.objects && !IsFileOf(Entries(t), dropped, n) ==> n in end.objects)
      && (forall n :: n in end.objects ==> n in t.objects && end.objects[n] == t.objects[n])
  {
    var db := Entries(t);
    var put := PutDatabase(Published(db - dropped, sign));
    var u := Do(t, put);
    var deletes := Deletes(db, dropped, listing);
    DoAllAppend(t, [put], deletes);
    OnePut(t, Published(db - dropped, sign));
    DeletesDo(u, db, dropped, listing);
    var end := DoAll(t, RemoveWrites(t, dropped, sign, listing));
    hide Doomed, DoAll, Deletes, IsPackage;
    forall p | p in dropped && p in db && IsPackage(db[p].filename)
      ensures db[p].filename !in end.objects && db[p].filename + SIG !in end.objects
    {
      FilesAreDoomed(db, dropped, p);
    }
    forall n | n in t.objects && !IsFileOf(db, dropped, n) ensures n in end.objects {
      OnlyFilesAreDoomed(db, dropped, n);
    }
  }

  /** Every package a removal leaves is listed by the database it leaves. */
  lemma RemovalListsPackages(t: Tree, dropped: set<string>, listing: seq<string>, f: string)
    requires Sound(t) && Clean(ViewOf(t)) && Lists(listing, t.objects)
    requires f in DoAll(t, RemoveWrites(t, dropped, true, listing)).objects && IsPackage(f)
    ensures var end := DoAll(t, RemoveWrites(t, dropped, true, listing));
      exists p :: p in Entries(end) && Entries(end)[p].filename == f
  {
    hide DoAll, RemoveWrites, Clean, ViewOf, Lists, IsPackage;
    RemoveEndsAt(t, dropped, true, listing);
    CleanListsEveryPackage(t, f);
    var p :| p in Entries(t) && Entries(t)[p].filename == f;
    if p in dropped {
      assert false;
    }
    var end := DoAll(t, RemoveWrites(t, dropped, true, listing));
    assert p in Entries(end) && Entries(end)[p].filename == f;
  }

  /** A signed removal from a clean tree that serves its readers ends clean. */
  lemma RemoveEndsClean(t: Tree, dropped: set<string>, listing: seq<string>)
    requires Served(true, t) && Clean(ViewOf(t)) && Lists(listing, t.objects)
    ensures Clean(ViewOf(DoAll(t, RemoveWrites(t, dropped, true, listing))))
  {
    var ws := RemoveWrites(t, dropped, true, listing);
    var end := DoAll(t, ws);
    assert Sound(t);
    assert ws[..|ws|] == ws;
    hide *;
    RemoveServes(true, t, dropped, true, listing);
    ThroughoutMeansEveryPrefix(true, t, ws, |ws|);
    RemoveEndsAt(t, dropped, true, listing);
    SignedMeans(end);
    forall f | f in end.objects && IsPackage(f)
      ensures exists n :: n in Entries(end) && Entries(end)[n].filename == f
    {
      RemovalListsPackages(t, dropped, listing, f);
    }
    ListedIsClean(end);
  }
}
